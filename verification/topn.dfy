/** The grouped Top-N ranker of the streaming tests, as a reference
    semantics: for one window batch, the records are partitioned by group
    key; within a group a later record with the same identity key replaces
    the earlier one; the surviving records are ordered by sort key and cut to
    N; the batch yields one map from group key to that group's list of
    `Tuple2{sortKey, record}`. */
module TopN {
  import opened Wrappers
  import opened Seqs
  import opened Flow
  import opened Tumbling

  datatype Order = Asc | Desc

  /** The order the ranker uses when no OrderBy option is given: the tests
      without OrderBy expect the largest sort keys first. */
  const DefaultOrder: Order := Desc

  /** One ranked entry: the record's sort key and the record itself. */
  datatype Tuple2<T> = Tuple2(sortKey: int, record: Record<T>)

  /** The ranker's options: the identity-key, sort-key and group-key
      extractors and the order. */
  datatype Options<-T, K, G> = Options(key: T -> K, sortKey: T -> int, groupKey: T -> G, order: Order)

  /** Sort key `a` may precede sort key `b` under `order`. */
  predicate RanksBefore(order: Order, a: int, b: int) {
    match order
    case Asc => a <= b
    case Desc => a >= b
  }

  /** `xs` is ordered by sort key under `order`. */
  predicate Sorted<T>(order: Order, xs: seq<Tuple2<T>>) {
    forall i, j :: 0 <= i < j < |xs| ==> RanksBefore(order, xs[i].sortKey, xs[j].sortKey)
  }

  /** The identity key of a record. */
  function KeyOf<T, K>(key: T -> K): Record<T> -> K {
    (x: Record<T>) => key(x.data)
  }

  /** The identity key of a ranked entry. */
  function EntryKeyOf<T, K>(key: T -> K): Tuple2<T> -> K {
    (t: Tuple2<T>) => key(t.record.data)
  }

  /** The last record of `rs` with identity `k`, if any: the one that
      survives under last-write-wins. */
  function Latest<T, K(==)>(rs: seq<Record<T>>, key: T -> K, k: K): (r: Option<Record<T>>)
    ensures r.Some? ==> r.value in rs && key(r.value.data) == k
    ensures r.None? ==> forall i :: 0 <= i < |rs| ==> key(rs[i].data) != k
  {
    if |rs| == 0 then None
    else if key(rs[|rs| - 1].data) == k then Some(rs[|rs| - 1])
    else Latest(rs[..|rs| - 1], key, k)
  }

  /** Records of `es` whose identity differs from `k`. */
  function OtherKey<T, K(==)>(key: T -> K, k: K): Record<T> -> bool {
    (y: Record<T>) => key(y.data) != k
  }

  /** Insert-or-replace by identity key. */
  function Upsert<T, K(==)>(es: seq<Record<T>>, x: Record<T>, key: T -> K): seq<Record<T>> {
    Keep(es, OtherKey(key, key(x.data))) + [x]
  }

  /** One entry per identity key, each the latest record with that key
      (see DedupSpec); entries keep the order of their last write. */
  function Dedup<T, K(==)>(rs: seq<Record<T>>, key: T -> K): (es: seq<Record<T>>)
    ensures |es| <= |rs|
  {
    if |rs| == 0 then []
    else Upsert(Dedup(rs[..|rs| - 1], key), rs[|rs| - 1], key)
  }

  /** Last write wins: the deduplicated entries have pairwise distinct
      identities, each is the latest record with its identity, and every
      identity of the input is represented by its latest record. */
  lemma {:induction false} DedupSpec<T, K>(rs: seq<Record<T>>, key: T -> K)
    ensures InjectiveOn(Dedup(rs, key), KeyOf(key))
    ensures forall x :: x in Dedup(rs, key) ==> Latest(rs, key, key(x.data)) == Some(x)
    ensures forall i :: 0 <= i < |rs| ==> Latest(rs, key, key(rs[i].data)).Some?
                                          && Latest(rs, key, key(rs[i].data)).value in Dedup(rs, key)
  {
    if |rs| > 0 {
      DedupSpec(rs[..|rs| - 1], key);
      var init := Dedup(rs[..|rs| - 1], key);
      DedupInjectiveStep(rs, key, init);
      DedupLatestStep(rs, key, init);
      DedupCoverStep(rs, key, init);
    }
  }

  /** Upserting a record keeps identities pairwise distinct. */
  lemma DedupInjectiveStep<T, K>(rs: seq<Record<T>>, key: T -> K, init: seq<Record<T>>)
    requires |rs| > 0
    requires InjectiveOn(init, KeyOf(key))
    ensures InjectiveOn(Upsert(init, rs[|rs| - 1], key), KeyOf(key))
  {
    var last := rs[|rs| - 1];
    var p := OtherKey(key, key(last.data));
    var kept := Keep(init, p);
    var es := kept + [last];
    KeepInjective(init, p, KeyOf(key));
    forall i, j | 0 <= i < j < |es|
      ensures KeyOf(key)(es[i]) != KeyOf(key)(es[j])
    {
      if j == |es| - 1 {
        assert es[i] in kept;
      } else {
        assert es[i] == kept[i] && es[j] == kept[j];
      }
    }
  }

  /** Upserting the last record keeps every entry the latest record with
      its identity. */
  lemma DedupLatestStep<T, K>(rs: seq<Record<T>>, key: T -> K, init: seq<Record<T>>)
    requires |rs| > 0
    requires forall x :: x in init ==> Latest(rs[..|rs| - 1], key, key(x.data)) == Some(x)
    ensures forall x :: x in Upsert(init, rs[|rs| - 1], key) ==> Latest(rs, key, key(x.data)) == Some(x)
  {
    var last := rs[|rs| - 1];
    var p := OtherKey(key, key(last.data));
    var kept := Keep(init, p);
    assert Upsert(init, last, key) == kept + [last];
    forall x | x in kept + [last]
      ensures Latest(rs, key, key(x.data)) == Some(x)
    {
      if x != last {
        assert x in kept;
        assert x in init && p(x);
        assert Latest(rs, key, key(x.data)) == Latest(rs[..|rs| - 1], key, key(x.data));
      }
    }
  }

  /** Upserting the last record keeps every identity of the input
      represented by its latest record. */
  lemma DedupCoverStep<T, K>(rs: seq<Record<T>>, key: T -> K, init: seq<Record<T>>)
    requires |rs| > 0
    requires forall i :: 0 <= i < |rs| - 1 ==> Latest(rs[..|rs| - 1], key, key(rs[i].data)).Some?
                                               && Latest(rs[..|rs| - 1], key, key(rs[i].data)).value in init
    ensures forall i :: 0 <= i < |rs| ==> Latest(rs, key, key(rs[i].data)).Some?
                                          && Latest(rs, key, key(rs[i].data)).value in Upsert(init, rs[|rs| - 1], key)
  {
    var last := rs[|rs| - 1];
    var p := OtherKey(key, key(last.data));
    var es := Keep(init, p) + [last];
    assert Upsert(init, last, key) == es;
    forall i | 0 <= i < |rs|
      ensures Latest(rs, key, key(rs[i].data)).Some? && Latest(rs, key, key(rs[i].data)).value in es
    {
      if key(rs[i].data) != key(last.data) {
        assert rs[i] == rs[..|rs| - 1][i];
        var y := Latest(rs[..|rs| - 1], key, key(rs[i].data)).value;
        KeepComplete(init, p, y);
      }
    }
  }

  /** Each record of `rs` paired with its sort key. */
  function ToTuples<T>(rs: seq<Record<T>>, sortKey: T -> int): (ts: seq<Tuple2<T>>)
    ensures |ts| == |rs|
    ensures forall i :: 0 <= i < |rs| ==> ts[i] == Tuple2(sortKey(rs[i].data), rs[i])
  {
    if |rs| == 0 then [] else [Tuple2(sortKey(rs[0].data), rs[0])] + ToTuples(rs[1..], sortKey)
  }

  /** Insert `t` into `xs` before the first entry it may precede. */
  function Insert<T>(order: Order, t: Tuple2<T>, xs: seq<Tuple2<T>>): (r: seq<Tuple2<T>>)
    ensures multiset(r) == multiset(xs) + multiset{t}
  {
    if |xs| == 0 then [t]
    else if RanksBefore(order, t.sortKey, xs[0].sortKey) then [t] + xs
    else
      assert xs == [xs[0]] + xs[1..];
      [xs[0]] + Insert(order, t, xs[1..])
  }

  /** Insertion into a sorted list keeps it sorted. */
  lemma {:induction false} InsertSorted<T>(order: Order, t: Tuple2<T>, xs: seq<Tuple2<T>>)
    requires Sorted(order, xs)
    ensures Sorted(order, Insert(order, t, xs))
  {
    if |xs| > 0 && !RanksBefore(order, t.sortKey, xs[0].sortKey) {
      InsertSorted(order, t, xs[1..]);
      var rest := Insert(order, t, xs[1..]);
      forall y | y in rest
        ensures RanksBefore(order, xs[0].sortKey, y.sortKey)
      {
        assert y in multiset(rest);
        if y != t {
          assert y in multiset(xs[1..]);
          var j :| 0 <= j < |xs[1..]| && xs[1..][j] == y;
          assert xs[j + 1] == y;
        }
      }
      var r := [xs[0]] + rest;
      forall i, j | 0 <= i < j < |r|
        ensures RanksBefore(order, r[i].sortKey, r[j].sortKey)
      {
        if i == 0 {
          assert r[j] in rest;
        } else {
          assert r[i] == rest[i - 1] && r[j] == rest[j - 1];
        }
      }
    }
  }

  /** Insertion sort by sort key: a permutation of its input. */
  function Sort<T>(order: Order, xs: seq<Tuple2<T>>): (r: seq<Tuple2<T>>)
    ensures multiset(r) == multiset(xs)
  {
    if |xs| == 0 then []
    else
      assert xs == [xs[0]] + xs[1..];
      Insert(order, xs[0], Sort(order, xs[1..]))
  }

  /** The sort's result is ordered. */
  lemma {:induction false} SortSorted<T>(order: Order, xs: seq<Tuple2<T>>)
    ensures Sorted(order, Sort(order, xs))
  {
    if |xs| > 0 {
      SortSorted(order, xs[1..]);
      InsertSorted(order, xs[0], Sort(order, xs[1..]));
    }
  }

  /** Insertion keeps identities distinct when the inserted one is new. */
  lemma {:induction false} InsertInjective<T, K>(order: Order, t: Tuple2<T>, xs: seq<Tuple2<T>>, key: T -> K)
    requires InjectiveOn(xs, EntryKeyOf(key))
    requires forall y :: y in xs ==> key(y.record.data) != key(t.record.data)
    ensures InjectiveOn(Insert(order, t, xs), EntryKeyOf(key))
  {
    if |xs| > 0 && !RanksBefore(order, t.sortKey, xs[0].sortKey) {
      assert InjectiveOn(xs[1..], EntryKeyOf(key));
      InsertInjective(order, t, xs[1..], key);
      var rest := Insert(order, t, xs[1..]);
      forall y | y in rest
        ensures key(y.record.data) != key(xs[0].record.data)
      {
        assert y in multiset(rest);
        if y != t {
          assert y in multiset(xs[1..]);
          var j :| 0 <= j < |xs[1..]| && xs[1..][j] == y;
          assert xs[j + 1] == y;
        }
      }
      var r := [xs[0]] + rest;
      forall i, j | 0 <= i < j < |r|
        ensures EntryKeyOf(key)(r[i]) != EntryKeyOf(key)(r[j])
      {
        if i == 0 {
          assert r[j] in rest;
        } else {
          assert r[i] == rest[i - 1] && r[j] == rest[j - 1];
        }
      }
    } else if |xs| > 0 {
      var r := [t] + xs;
      forall i, j | 0 <= i < j < |r|
        ensures EntryKeyOf(key)(r[i]) != EntryKeyOf(key)(r[j])
      {
        if i == 0 {
          assert r[j] in xs;
        } else {
          assert r[i] == xs[i - 1] && r[j] == xs[j - 1];
        }
      }
    }
  }

  /** Sorting keeps identities distinct. */
  lemma {:induction false} SortInjective<T, K>(order: Order, xs: seq<Tuple2<T>>, key: T -> K)
    requires InjectiveOn(xs, EntryKeyOf(key))
    ensures InjectiveOn(Sort(order, xs), EntryKeyOf(key))
  {
    if |xs| > 0 {
      assert InjectiveOn(xs[1..], EntryKeyOf(key));
      SortInjective(order, xs[1..], key);
      forall y | y in Sort(order, xs[1..])
        ensures key(y.record.data) != key(xs[0].record.data)
      {
        assert y in multiset(Sort(order, xs[1..]));
        var j :| 0 <= j < |xs[1..]| && xs[1..][j] == y;
        assert xs[j + 1] == y;
      }
      InsertInjective(order, xs[0], Sort(order, xs[1..]), key);
    }
  }

  /** The ranked list of one group's records: the latest record per identity,
      ordered by sort key, cut to `n`. */
  function RankGroup<T, K(==), G>(rs: seq<Record<T>>, n: nat, opts: Options<T, K, G>): seq<Tuple2<T>>
  {
    Cut(opts.order, ToTuples(Dedup(rs, opts.key), opts.sortKey), n)
  }

  /** The first `n` entries of `xs` in ranking order (all of them when there
      are fewer). */
  function Cut<T>(order: Order, xs: seq<Tuple2<T>>, n: nat): seq<Tuple2<T>> {
    var sorted := Sort(order, xs);
    sorted[..if |sorted| < n then |sorted| else n]
  }

  /** The cut is a sorted selection of at most `n` entries, keeps distinct
      identities distinct, and leaves an entry out only when it is full of
      entries that rank no worse. */
  lemma CutSpec<T, K>(order: Order, xs: seq<Tuple2<T>>, n: nat, key: T -> K)
    ensures |Cut(order, xs, n)| <= n
    ensures Sorted(order, Cut(order, xs, n))
    ensures InjectiveOn(xs, EntryKeyOf(key)) ==> InjectiveOn(Cut(order, xs, n), EntryKeyOf(key))
    ensures forall t :: t in Cut(order, xs, n) ==> t in xs
    ensures forall y :: y in xs && y !in Cut(order, xs, n) ==>
              |Cut(order, xs, n)| == n
              && forall t :: t in Cut(order, xs, n) ==> RanksBefore(order, t.sortKey, y.sortKey)
  {
    var sorted := Sort(order, xs);
    var top := Cut(order, xs, n);
    SortSorted(order, xs);
    if InjectiveOn(xs, EntryKeyOf(key)) {
      SortInjective(order, xs, key);
    }
    forall t | t in top
      ensures t in xs
    {
      assert t in sorted;
      assert t in multiset(sorted);
    }
    forall y | y in xs && y !in top
      ensures |top| == n
      ensures forall t :: t in top ==> RanksBefore(order, t.sortKey, y.sortKey)
    {
      assert y in multiset(xs);
      assert y in sorted;
      SortedPrefix(order, sorted, n, y);
    }
  }

  /** The entries a group ranks: one tuple per identity, each holding the
      latest record with that identity and that record's sort key. */
  lemma CandidatesSpec<T, K, G>(rs: seq<Record<T>>, opts: Options<T, K, G>)
    ensures InjectiveOn(ToTuples(Dedup(rs, opts.key), opts.sortKey), EntryKeyOf(opts.key))
    ensures forall t :: t in ToTuples(Dedup(rs, opts.key), opts.sortKey) ==>
              t.sortKey == opts.sortKey(t.record.data)
              && Latest(rs, opts.key, opts.key(t.record.data)) == Some(t.record)
    ensures forall x :: x in rs && Latest(rs, opts.key, opts.key(x.data)) == Some(x) ==>
              Tuple2(opts.sortKey(x.data), x) in ToTuples(Dedup(rs, opts.key), opts.sortKey)
  {
    var es := Dedup(rs, opts.key);
    var tuples := ToTuples(es, opts.sortKey);
    DedupSpec(rs, opts.key);
    forall i, j | 0 <= i < j < |tuples|
      ensures EntryKeyOf(opts.key)(tuples[i]) != EntryKeyOf(opts.key)(tuples[j])
    {
      assert KeyOf(opts.key)(es[i]) != KeyOf(opts.key)(es[j]);
    }
    forall t | t in tuples
      ensures t.sortKey == opts.sortKey(t.record.data)
      ensures Latest(rs, opts.key, opts.key(t.record.data)) == Some(t.record)
    {
      var i :| 0 <= i < |tuples| && tuples[i] == t;
      assert es[i] in es;
    }
    forall x | x in rs && Latest(rs, opts.key, opts.key(x.data)) == Some(x)
      ensures Tuple2(opts.sortKey(x.data), x) in tuples
    {
      var ix :| 0 <= ix < |rs| && rs[ix] == x;
      assert x in es;
      var i :| 0 <= i < |es| && es[i] == x;
      assert tuples[i] == Tuple2(opts.sortKey(x.data), x);
    }
  }

  /** Cutting a sorted list: whatever is cut off ranks no better than
      anything kept, and something is cut off only from a full prefix. */
  lemma SortedPrefix<T>(order: Order, sorted: seq<Tuple2<T>>, n: nat, y: Tuple2<T>)
    requires Sorted(order, sorted) && y in sorted
    requires y !in sorted[..if |sorted| < n then |sorted| else n]
    ensures |sorted| >= n
    ensures forall t :: t in sorted[..n] ==> RanksBefore(order, t.sortKey, y.sortKey)
  {
    var k :| 0 <= k < |sorted| && sorted[k] == y;
    assert k >= n;
    forall t | t in sorted[..n]
      ensures RanksBefore(order, t.sortKey, y.sortKey)
    {
      var a :| 0 <= a < n && sorted[..n][a] == t;
    }
  }

  /** A group's ranked list is bounded by `n`, sorted, holds only the latest
      record of each identity (each identity at most once, each entry with
      its record's own sort key), and is a true top-n: a latest record left
      out means the list is full and every listed entry ranks no worse. */
  lemma RankGroupSpec<T, K, G>(rs: seq<Record<T>>, n: nat, opts: Options<T, K, G>)
    ensures |RankGroup(rs, n, opts)| <= n
    ensures Sorted(opts.order, RankGroup(rs, n, opts))
    ensures InjectiveOn(RankGroup(rs, n, opts), EntryKeyOf(opts.key))
    ensures forall t :: t in RankGroup(rs, n, opts) ==>
              t.sortKey == opts.sortKey(t.record.data)
              && Latest(rs, opts.key, opts.key(t.record.data)) == Some(t.record)
    ensures forall x :: x in rs && Latest(rs, opts.key, opts.key(x.data)) == Some(x)
                        && Tuple2(opts.sortKey(x.data), x) !in RankGroup(rs, n, opts) ==>
              |RankGroup(rs, n, opts)| == n
              && forall t :: t in RankGroup(rs, n, opts) ==> RanksBefore(opts.order, t.sortKey, opts.sortKey(x.data))
  {
    var tuples := ToTuples(Dedup(rs, opts.key), opts.sortKey);
    assert RankGroup(rs, n, opts) == Cut(opts.order, tuples, n);
    CandidatesSpec(rs, opts);
    CutSpec(opts.order, tuples, n, opts.key);
  }

  /** The group keys present in a batch. */
  function Groups<T, G(==)>(batch: seq<Record<T>>, groupKey: T -> G): set<G> {
    set i | 0 <= i < |batch| :: groupKey(batch[i].data)
  }

  /** Records of a batch that belong to group `g`. */
  function InGroup<T, G(==)>(groupKey: T -> G, g: G): Record<T> -> bool {
    (x: Record<T>) => groupKey(x.data) == g
  }

  /** The ranker applied to one closed window batch: one ranked list per
      group present in the batch. */
  function RankWindow<T, K(==), G(==)>(batch: seq<Record<T>>, n: nat, opts: Options<T, K, G>): map<G, seq<Tuple2<T>>> {
    map g | g in Groups(batch, opts.groupKey) :: RankGroup(Keep(batch, InGroup(opts.groupKey, g)), n, opts)
  }

  /** Every group present in the window has exactly one list; each list is
      bounded by `n`, sorted, and holds only records of that group taken
      unchanged (timestamps included) from the window. */
  lemma RankWindowSpec<T, K, G>(batch: seq<Record<T>>, n: nat, opts: Options<T, K, G>)
    ensures RankWindow(batch, n, opts).Keys == Groups(batch, opts.groupKey)
    ensures forall g :: g in RankWindow(batch, n, opts) ==>
              |RankWindow(batch, n, opts)[g]| <= n
              && Sorted(opts.order, RankWindow(batch, n, opts)[g])
              && forall t :: t in RankWindow(batch, n, opts)[g] ==>
                   t.record in batch && opts.groupKey(t.record.data) == g
  {
    var m: map<G, seq<Tuple2<T>>> := RankWindow(batch, n, opts);
    forall g | g in m
      ensures |m[g]| <= n && Sorted(opts.order, m[g])
      ensures forall t: Tuple2<T> :: t in m[g] ==> t.record in batch && opts.groupKey(t.record.data) == g
    {
      var grp := Keep(batch, InGroup(opts.groupKey, g));
      RankGroupSpec(grp, n, opts);
      forall t: Tuple2<T> | t in m[g]
        ensures t.record in batch && opts.groupKey(t.record.data) == g
      {
        assert t.record in grp;
      }
    }
  }

  /** The ranker as a stream stage: one ranked snapshot per closed window,
      in window order. */
  function TopNStage<T, K(==), G(==)>(ws: seq<TimeWindow<T>>, n: nat, opts: Options<T, K, G>): (out: seq<map<G, seq<Tuple2<T>>>>)
    ensures |out| == |ws|
    ensures forall i :: 0 <= i < |ws| ==> out[i] == RankWindow(ws[i].records, n, opts)
  {
    if |ws| == 0 then [] else [RankWindow(ws[0].records, n, opts)] + TopNStage(ws[1..], n, opts)
  }
}
