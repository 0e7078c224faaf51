/** Keys, values and the messages a tree buffers (message.go), with their meaning: what a
    list of messages for one key does to the value stored under that key. */
module Messages {
  import opened Seqs

  /** A key, standing for its place in the comparator's order. Every key type has countably
      many values, so its strict total order embeds in the reals, and the code only ever
      compares and copies keys. */
  type K = real

  type V(0, !new)

  datatype Option<+T> = None | Some(value: T)

  /** UpsertFn: None is the call fn(nil, false), Some(v) the call fn(&v, true). */
  type UpsertFn = Option<V> -> V

  datatype Message =
    | Put(key: K, value: V, counted: bool)
    | Delete(key: K)
    | DeleteRange(key: K, endKey: K)
    | Upsert(key: K, fn: UpsertFn)

  function Cmp(a: K, b: K): int {
    if a < b then -1 else if a == b then 0 else 1
  }

  // ---------- Ranges of keys ----------

  /** A range with optional ends, each inclusive or not. */
  datatype Range = Range(lo: Option<K>, loInc: bool, hi: Option<K>, hiInc: bool) {
    predicate Has(k: K) {
      && (lo.Some? ==> lo.value < k || (loInc && lo.value == k))
      && (hi.Some? ==> k < hi.value || (hiInc && k == hi.value))
    }
  }

  /** What a range holds, for each of its ends. */
  lemma HasMeans(r: Range, k: K)
    ensures r.lo.None? && r.hi.None? ==> r.Has(k)
    ensures r.lo.Some? && r.hi.None? ==> (r.Has(k) <==> if r.loInc then r.lo.value <= k else r.lo.value < k)
    ensures r.lo.None? && r.hi.Some? ==> (r.Has(k) <==> if r.hiInc then k <= r.hi.value else k < r.hi.value)
    ensures r.lo.Some? && r.hi.Some? && r.loInc && r.hiInc ==> (r.Has(k) <==> r.lo.value <= k <= r.hi.value)
    ensures r.lo.Some? && r.hi.Some? && r.loInc && !r.hiInc ==> (r.Has(k) <==> r.lo.value <= k < r.hi.value)
    ensures r.lo.Some? && r.hi.Some? && !r.loInc && r.hiInc ==> (r.Has(k) <==> r.lo.value < k <= r.hi.value)
    ensures r.lo.Some? && r.hi.Some? && !r.loInc && !r.hiInc ==> (r.Has(k) <==> r.lo.value < k < r.hi.value)
  {}

  const EVERYTHING := Range(None, true, None, false)

  function Only(k: K): Range { Range(Some(k), true, Some(k), true) }

  function Below(k: K): Range { Range(None, true, Some(k), false) }

  function From(k: K): Range { Range(Some(k), true, None, false) }

  /** The test "this message's key lies in r", as a value. */
  function Within(r: Range): Message -> bool { (m: Message) => r.Has(m.key) }

  function Sel(ms: seq<Message>, r: Range): seq<Message> { Filter(ms, Within(r)) }

  /** The messages for one key, oldest first. */
  function At(ms: seq<Message>, k: K): seq<Message> { Sel(ms, Only(k)) }

  ghost predicate AllWithin(ms: seq<Message>, r: Range) {
    forall m :: m in ms ==> r.Has(m.key)
  }

  lemma AtSel(ms: seq<Message>, r: Range, k: K)
    ensures At(Sel(ms, r), k) == if r.Has(k) then At(ms, k) else []
  {
    if r.Has(k) {
      FilterWithin(ms, Within(r), Within(Only(k)));
    } else {
      FilterMembers(ms, Within(r));
      FilterNone(Sel(ms, r), Within(Only(k)));
    }
  }

  lemma AtOutside(ms: seq<Message>, r: Range, k: K)
    requires AllWithin(ms, r) && !r.Has(k)
    ensures At(ms, k) == []
  {
    FilterNone(ms, Within(Only(k)));
  }

  lemma AtConcat(a: seq<Message>, b: seq<Message>, k: K)
    ensures At(a + b, k) == At(a, k) + At(b, k)
  {
    FilterConcat(a, b, Within(Only(k)));
  }

  lemma AtNone(k: K)
    ensures At([], k) == []
  {}

  lemma AtSnoc(ms: seq<Message>, m: Message, k: K)
    ensures At(ms + [m], k) == if m.key == k then At(ms, k) + [m] else At(ms, k)
  {
    FilterSnoc(ms, m, Within(Only(k)));
  }

  // ---------- What messages mean ----------

  /** The state of a key after one message, from its state before. */
  function Step(m: Message, o: Option<V>): Option<V> {
    match m
    case Put(_, v, _) => Some(v)
    case Delete(_) => None
    case DeleteRange(_, _) => o
    case Upsert(_, fn) => Some(fn(o))
  }

  /** The state of a key after messages for it, oldest first. */
  function Fold(ms: seq<Message>, o: Option<V>): Option<V> {
    if ms == [] then o else Step(ms[|ms| - 1], Fold(ms[..|ms| - 1], o))
  }

  lemma {:induction false} FoldConcat(a: seq<Message>, b: seq<Message>, o: Option<V>)
    ensures Fold(a + b, o) == Fold(b, Fold(a, o))
  {
    if b == [] {
      assert a + b == a;
    } else {
      assert (a + b)[..|a + b| - 1] == a + b[..|b| - 1];
      FoldConcat(a, b[..|b| - 1], o);
    }
  }

  lemma FoldSnoc(ms: seq<Message>, m: Message, o: Option<V>)
    ensures Fold(ms + [m], o) == Step(m, Fold(ms, o))
  {
    assert (ms + [m])[..|ms|] == ms;
  }

  lemma FoldNone(o: Option<V>)
    ensures Fold([], o) == o
  {}

  lemma FoldOne(m: Message, o: Option<V>)
    ensures Fold([m], o) == Step(m, o)
  {
    FoldSnoc([], m, o);
    assert [] + [m] == [m];
  }

  // ---------- Message histories ----------

  /** A buffered delete, and a buffered put that did not raise the size, were sent for a key
      that was live. */
  predicate NeedsLive(m: Message) {
    m.Delete? || (m.Put? && !m.counted)
  }

  /** A list of messages for one key, on top of state o: every message that needs a live key
      finds one. */
  ghost predicate Hist(ms: seq<Message>, o: Option<V>) {
    ms == [] ||
    (Hist(ms[..|ms| - 1], o) && (NeedsLive(ms[|ms| - 1]) ==> Fold(ms[..|ms| - 1], o).Some?))
  }

  lemma {:induction false} HistConcat(a: seq<Message>, b: seq<Message>, o: Option<V>)
    ensures Hist(a + b, o) <==> Hist(a, o) && Hist(b, Fold(a, o))
  {
    if b == [] {
      assert a + b == a;
    } else {
      var b' := b[..|b| - 1];
      assert (a + b)[..|a + b| - 1] == a + b';
      HistConcat(a, b', o);
      FoldConcat(a, b', o);
    }
  }

  lemma HistSnoc(ms: seq<Message>, m: Message, o: Option<V>)
    ensures Hist(ms + [m], o) <==> Hist(ms, o) && (NeedsLive(m) ==> Fold(ms, o).Some?)
  {
    assert (ms + [m])[..|ms|] == ms;
  }

  // ---------- Tallies ----------

  function Counted(ms: seq<Message>): nat {
    if ms == [] then 0
    else Counted(ms[..|ms| - 1]) + (var m := ms[|ms| - 1]; if m.Put? && m.counted then 1 else 0)
  }

  function Deletes(ms: seq<Message>): nat {
    if ms == [] then 0
    else Deletes(ms[..|ms| - 1]) + (if ms[|ms| - 1].Delete? then 1 else 0)
  }

  lemma TallySnoc(ms: seq<Message>, m: Message)
    ensures Counted(ms + [m]) == Counted(ms) + (if m.Put? && m.counted then 1 else 0)
    ensures Deletes(ms + [m]) == Deletes(ms) + (if m.Delete? then 1 else 0)
  {
    assert (ms + [m])[..|ms|] == ms;
  }

  lemma {:induction false} TallyConcat(a: seq<Message>, b: seq<Message>)
    ensures Counted(a + b) == Counted(a) + Counted(b)
    ensures Deletes(a + b) == Deletes(a) + Deletes(b)
  {
    if b == [] {
      assert a + b == a;
    } else {
      assert (a + b)[..|a + b| - 1] == a + b[..|b| - 1];
      TallyConcat(a, b[..|b| - 1]);
    }
  }

  lemma {:induction false} NoDeletes(ms: seq<Message>)
    ensures Deletes(ms) == 0 <==> forall m :: m in ms ==> !m.Delete?
  {
    if ms != [] {
      NoDeletes(ms[..|ms| - 1]);
      assert ms == ms[..|ms| - 1] + [ms[|ms| - 1]];
    }
  }

  /** The messages the code ever makes: it declares MsgDeleteRange but never builds one. */
  ghost predicate Point(ms: seq<Message>) {
    forall m :: m in ms ==> !m.DeleteRange?
  }
}
