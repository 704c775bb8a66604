/** The streaming tests' pipelines and expected sink contents, proved on the
    model: the evens filter, the doubling map, and the bottom-3 / top-3
    rankings over 15-second tumbling windows. */
module StreamingVectors {
  import opened Wrappers
  import opened Seqs
  import opened Flow
  import opened Tumbling
  import opened TopN

  /** The Filter test's predicate: even numbers pass. */
  function IsEven(i: int): bool { i % 2 == 0 }

  /** The Map test's mapper: multiply by two. */
  function Double(i: int): int { i * 2 }

  /** The first `k` even numbers, in order. */
  function Evens(k: nat): (r: seq<int>)
    ensures |r| == k
    ensures forall i :: 0 <= i < k ==> r[i] == 2 * i
  {
    if k == 0 then [] else Evens(k - 1) + [2 * (k - 1)]
  }

  /** The slice source distributes over concatenation. */
  lemma {:induction false} SliceSourceConcat<T>(a: seq<T>, b: seq<T>)
    ensures SliceSource(a + b) == SliceSource(a) + SliceSource(b)
  {
    var l, r := SliceSource(a + b), SliceSource(a) + SliceSource(b);
    assert |l| == |r|;
    forall i | 0 <= i < |l|
      ensures l[i] == r[i]
    {
      if i < |a| {
        assert (a + b)[i] == a[i];
      } else {
        assert (a + b)[i] == b[i - |a|];
      }
    }
  }

  /** The numbers [0, 2m + 2) as source records: those of [0, 2m), then
      the records of 2m and 2m + 1. */
  lemma SourceTwoMore(m: nat)
    ensures SliceSource(NumberRange(0, 2 * m + 2))
         == SliceSource(NumberRange(0, 2 * m)) + [WithoutTS(2 * m), WithoutTS(2 * m + 1)]
  {
    var l := SliceSource(NumberRange(0, 2 * m + 2));
    var r := SliceSource(NumberRange(0, 2 * m)) + [WithoutTS(2 * m), WithoutTS(2 * m + 1)];
    assert |l| == |r|;
    forall i | 0 <= i < |l|
      ensures l[i] == r[i]
    {
    }
  }

  /** Keep over a sequence extended by a kept and a dropped element. */
  lemma KeepPair<X>(a: seq<X>, x: X, y: X, p: X -> bool)
    requires p(x) && !p(y)
    ensures Keep(a + [x, y], p) == Keep(a, p) + [x]
  {
    KeepConcat(a, [x, y], p);
    assert [x, y][1..] == [y] && [y][1..] == [];
    KeepCons([y], p);
    KeepCons([x, y], p);
  }

  /** The even filter over one more pair of numbers passes the even one. */
  lemma FilterEvensStep(m: nat)
    ensures Filter(SliceSource(NumberRange(0, 2 * m + 2)), IsEven)
         == Filter(SliceSource(NumberRange(0, 2 * m)), IsEven) + [WithoutTS(2 * m)]
  {
    SourceTwoMore(m);
    assert IsEven(2 * m) && !IsEven(2 * m + 1);
    KeepPair(SliceSource(NumberRange(0, 2 * m)), WithoutTS(2 * m), WithoutTS(2 * m + 1), OnData(IsEven));
  }

  /** The source of the first m + 1 evens ends with the record of 2m. */
  lemma EvensSource(m: nat)
    ensures SliceSource(Evens(m + 1)) == SliceSource(Evens(m)) + [WithoutTS(2 * m)]
  {
    assert Evens(m + 1) == Evens(m) + [2 * m];
    SliceSourceConcat(Evens(m), [2 * m]);
  }

  /** Filtering the numbers [0, 2k) for evenness leaves the first k evens. */
  lemma {:induction false} FilterEvensOf(k: nat)
    ensures Filter(SliceSource(NumberRange(0, 2 * k)), IsEven) == SliceSource(Evens(k))
  {
    if k > 0 {
      var m: nat := k - 1;
      assert 2 * m + 2 == 2 * k && m + 1 == k;
      FilterEvensOf(m);
      FilterEvensStep(m);
      EvensSource(m);
      var done, todo := Filter(SliceSource(NumberRange(0, 2 * m)), IsEven), SliceSource(Evens(m));
      assert Filter(SliceSource(NumberRange(0, 2 * m + 2)), IsEven) == done + [WithoutTS(2 * m)];
      assert SliceSource(Evens(m + 1)) == todo + [WithoutTS(2 * m)];
    }
  }

  /** The Filter test: numberRange(0, 10) through the even filter reaches the
      sink as 0, 2, 4, 6, 8, each without a timestamp. */
  lemma FilterTest()
    ensures Filter(SliceSource(NumberRange(0, 10)), IsEven) == SliceSource([0, 2, 4, 6, 8])
  {
    FilterEvensOf(5);
    assert Evens(5) == [0, 2, 4, 6, 8];
  }

  /** Doubling the numbers [0, k) gives the first k evens. */
  lemma MapDoubles(k: nat)
    ensures Map(SliceSource(NumberRange(0, k)), Double) == SliceSource(Evens(k))
  {
    var l, r := Map(SliceSource(NumberRange(0, k)), Double), SliceSource(Evens(k));
    assert |l| == |r|;
    forall i | 0 <= i < |l|
      ensures l[i] == r[i]
    {
    }
  }

  /** The Map test: numberRange(0, 10) through the doubling map reaches the
      sink as 0, 2, ..., 18, each without a timestamp. */
  lemma MapTest()
    ensures Map(SliceSource(NumberRange(0, 10)), Double)
         == SliceSource([0, 2, 4, 6, 8, 10, 12, 14, 16, 18])
  {
    MapDoubles(10);
    assert Evens(10) == [0, 2, 4, 6, 8, 10, 12, 14, 16, 18];
  }

  /** The Filter test end to end: an empty slice sink drained from the even
      filter over numberRange(0, 10) holds 0, 2, 4, 6, 8. */
  method FilterSink() returns (sink: Slice<Record<int>>)
    ensures sink.value == SliceSource([0, 2, 4, 6, 8])
  {
    FilterTest();
    sink := RunSlice(Slice([]), Filter(SliceSource(NumberRange(0, 10)), IsEven));
  }

  /** The Map test end to end: an empty slice sink drained from the doubling
      map over numberRange(0, 10) holds 0, 2, ..., 18. */
  method MapSink() returns (sink: Slice<Record<int>>)
    ensures sink.value == SliceSource([0, 2, 4, 6, 8, 10, 12, 14, 16, 18])
  {
    MapTest();
    sink := RunSlice(Slice([]), Map(SliceSource(NumberRange(0, 10)), Double));
  }

  /** The two services of the TopN tests, "e2e-service-consumer" and
      "e2e-service-provider". */
  datatype Service = ServiceConsumer | ServiceProvider

  /** The test's source payload; `instance` n stands for "instance-00n". */
  datatype Item = Item(service: Service, instance: nat, value: int)

  /** An entity identity: the concatenation service + instance of the test,
      kept as a pair so that distinct identities are plainly distinct. */
  datatype Id = Id(service: Service, instance: nat)

  /** The payload after the grouping Map: service, value, identity. */
  datatype Data = Data(service: Service, value: int, id: Id)

  /** The grouping Map of the TopN tests. */
  function GroupBy(i: Item): Data {
    Data(i.service, i.value, Id(i.service, i.instance))
  }

  /** Fifteen seconds, in milliseconds. */
  const WindowSize: int := 15000

  /** The eight timestamped input records of both TopN tests. */
  function TopNInput(): seq<Record<Item>> {
    [ WithTS(Item(ServiceProvider, 1, 10000), 1000),
      WithTS(Item(ServiceConsumer, 1, 9900), 2000),
      WithTS(Item(ServiceProvider, 2, 9800), 3000),
      WithTS(Item(ServiceConsumer, 2, 9700), 4000),
      WithTS(Item(ServiceProvider, 3, 9700), 5000),
      WithTS(Item(ServiceConsumer, 4, 9600), 6000),
      WithTS(Item(ServiceConsumer, 1, 9500), 7000),
      WithTS(Item(ServiceProvider, 2, 9800), 61000) ]
  }

  /** The ranker options of the tests: identity = service + instance, sort key
      = value, group = service. */
  function TestOptions(order: Order): Options<Data, Id, Service> {
    Options(IdOf, ValueOf, ServiceOf, order)
  }

  /** The key extractor: the record's identity. */
  function IdOf(d: Data): Id { d.id }

  /** The sort-key extractor: the record's value. */
  function ValueOf(d: Data): int { d.value }

  /** The group-key extractor: the record's service. */
  function ServiceOf(d: Data): Service { d.service }

  /** Source -> Map(groupBy) -> Window(15 s tumbling) -> TopN(3) -> sink. */
  function TopNPipeline(input: seq<Record<Item>>, order: Order): seq<map<Service, seq<Tuple2<Data>>>>
    requires Timed(input)
  {
    var mapped := Map(input, GroupBy);
    assert Timed(mapped);
    TopNStage(Windows(mapped, WindowSize), 3, TestOptions(order))
  }

  /** The entry the sink holds for a test record: its sort key and the
      record as the grouping Map produced it. */
  function Entry(service: Service, instance: nat, value: int, ts: int): Tuple2<Data> {
    Tuple2(value, WithTS(Data(service, value, Id(service, instance)), ts))
  }

  /** The records after the grouping Map, timestamps unchanged. */
  function MappedInput(): seq<Record<Data>> {
    [ Entry(ServiceProvider, 1, 10000, 1000).record,
      Entry(ServiceConsumer, 1, 9900, 2000).record,
      Entry(ServiceProvider, 2, 9800, 3000).record,
      Entry(ServiceConsumer, 2, 9700, 4000).record,
      Entry(ServiceProvider, 3, 9700, 5000).record,
      Entry(ServiceConsumer, 4, 9600, 6000).record,
      Entry(ServiceConsumer, 1, 9500, 7000).record,
      Entry(ServiceProvider, 2, 9800, 61000).record ]
  }

  lemma MappedInputIs()
    ensures Map(TopNInput(), GroupBy) == MappedInput()
  {
    var m := Map(TopNInput(), GroupBy);
    assert |m| == |MappedInput()|;
    forall i | 0 <= i < |m|
      ensures m[i] == MappedInput()[i]
    {
    }
  }

  lemma MappedStarts()
    ensures Timed(MappedInput())
    ensures forall i :: 0 <= i < 7 ==> StartOf(MappedInput()[i], WindowSize) == 0
    ensures StartOf(MappedInput()[7], WindowSize) == 60000
  {
    var m := MappedInput();
    forall i | 0 <= i < 7
      ensures StartOf(m[i], WindowSize) == 0
    {
      WindowStartUnique(m[i].ts.value, WindowSize, 0);
    }
    WindowStartUnique(61000, WindowSize, 4);
  }

  lemma FirstStart()
    ensures Timed(MappedInput())
    ensures MinStart(MappedInput(), WindowSize) == 0
  {
    var m := MappedInput();
    MappedStarts();
    var w := MinStart(m, WindowSize);
    assert w <= StartOf(m[0], WindowSize) by {
      assert m[0] in m;
    }
    var i :| 0 <= i < |m| && m[i].ts.Some? && StartOf(m[i], WindowSize) == w;
  }

  /** A bucket holding a whole prefix of the input and none of the rest. */
  lemma PrefixBucket<T>(s: seq<Record<T>>, size: int, w: int, k: nat)
    requires size > 0 && k <= |s| && Timed(s)
    requires forall i :: 0 <= i < k ==> StartOf(s[i], size) == w
    requires forall i :: k <= i < |s| ==> StartOf(s[i], size) != w
    ensures Bucket(s, size, w) == s[..k]
  {
    var p := InBucket<T>(size, w);
    assert s == s[..k] + s[k..];
    KeepConcat(s[..k], s[k..], p);
    KeepAll(s[..k], p);
    KeepNone(s[k..], p);
  }

  lemma FirstBucket()
    ensures Bucket(MappedInput(), WindowSize, 0) == MappedInput()[..7]
  {
    MappedStarts();
    PrefixBucket(MappedInput(), WindowSize, 0, 7);
  }

  /** The first emission is the window [0, 15000) holding the first seven
      records; the record at 61000 ms is not in it. */
  lemma FirstWindow()
    ensures Timed(MappedInput())
    ensures Windows(MappedInput(), WindowSize)[0] == TimeWindow(0, WindowSize, MappedInput()[..7])
  {
    FirstStart();
    FirstBucket();
  }

  /** The records of the first window. */
  function FirstWindowRecords(): seq<Record<Data>> {
    [ Entry(ServiceProvider, 1, 10000, 1000).record,
      Entry(ServiceConsumer, 1, 9900, 2000).record,
      Entry(ServiceProvider, 2, 9800, 3000).record,
      Entry(ServiceConsumer, 2, 9700, 4000).record,
      Entry(ServiceProvider, 3, 9700, 5000).record,
      Entry(ServiceConsumer, 4, 9600, 6000).record,
      Entry(ServiceConsumer, 1, 9500, 7000).record ]
  }

  /** Keep over a four-element sequence whose selected positions are 0, 2, 3. */
  lemma KeepSkipOne<X>(w: seq<X>, p: X -> bool)
    requires |w| == 4
    requires p(w[0]) && !p(w[1]) && p(w[2]) && p(w[3])
    ensures Keep(w, p) == [w[0], w[2], w[3]]
  {
    KeepCons(w[3..], p);
    assert Keep(w[3..], p) == [w[3]];
    KeepCons(w[2..], p);
    assert w[2..][1..] == w[3..];
    KeepCons(w[1..], p);
    assert w[1..][1..] == w[2..];
    assert Keep(w[1..], p) == [w[2], w[3]];
    KeepCons(w, p);
  }

  /** Keep over a seven-element sequence whose selected positions are 1, 3, 5, 6. */
  lemma KeepOddTail<X>(w: seq<X>, p: X -> bool)
    requires |w| == 7
    requires !p(w[0]) && p(w[1]) && !p(w[2]) && p(w[3]) && !p(w[4]) && p(w[5]) && p(w[6])
    ensures Keep(w, p) == [w[1], w[3], w[5], w[6]]
  {
    var tail := w[3..];
    KeepSkipOne(tail, p);
    assert Keep(tail, p) == [w[3], w[5], w[6]];
    KeepCons(w[2..], p);
    assert w[2..][1..] == tail;
    assert Keep(w[2..], p) == Keep(tail, p);
    KeepCons(w[1..], p);
    assert w[1..][1..] == w[2..];
    KeepCons(w, p);
    assert Keep(w, p) == Keep(w[1..], p);
  }

  /** A record of the first window belongs to a service's group exactly
      when it carries that service. */
  lemma InServiceGroup(w: seq<Record<Data>>, g: Service)
    ensures forall i :: 0 <= i < |w| ==> InGroup(ServiceOf, g)(w[i]) == (w[i].data.service == g)
  {
    forall i | 0 <= i < |w|
      ensures InGroup(ServiceOf, g)(w[i]) == (w[i].data.service == g)
    {
      assert ServiceOf(w[i].data) == w[i].data.service;
    }
  }

  lemma ConsumerGroup()
    ensures Keep(FirstWindowRecords(), InGroup(ServiceOf, ServiceConsumer))
         == [ Entry(ServiceConsumer, 1, 9900, 2000).record,
              Entry(ServiceConsumer, 2, 9700, 4000).record,
              Entry(ServiceConsumer, 4, 9600, 6000).record,
              Entry(ServiceConsumer, 1, 9500, 7000).record ]
  {
    var w, p := FirstWindowRecords(), InGroup(ServiceOf, ServiceConsumer);
    InServiceGroup(w, ServiceConsumer);
    KeepOddTail(w, p);
  }

  /** Dedup unfolded once: the last record is upserted into the rest. */
  lemma DedupSnoc<T, K>(rs: seq<Record<T>>, key: T -> K)
    requires |rs| > 0
    ensures Dedup(rs, key) == Upsert(Dedup(rs[..|rs| - 1], key), rs[|rs| - 1], key)
  {
  }

  /** Upserting a record with a new identity appends it. */
  lemma UpsertNew<T, K>(es: seq<Record<T>>, x: Record<T>, key: T -> K)
    requires forall i :: 0 <= i < |es| ==> key(es[i].data) != key(x.data)
    ensures Upsert(es, x, key) == es + [x]
  {
    KeepAll(es, OtherKey(key, key(x.data)));
  }

  /** Upserting a record whose identity only the head of `es` has replaces
      that head: it moves to the back with the new record. */
  lemma UpsertReplacesHead<T, K>(es: seq<Record<T>>, x: Record<T>, key: T -> K)
    requires |es| > 0 && key(es[0].data) == key(x.data)
    requires forall i :: 1 <= i < |es| ==> key(es[i].data) != key(x.data)
    ensures Upsert(es, x, key) == es[1..] + [x]
  {
    var p := OtherKey(key, key(x.data));
    KeepCons(es, p);
    KeepAll(es[1..], p);
  }

  /** Last-write-wins on four records where the first and the last share an
      identity and the others are distinct. */
  lemma DedupReplacesFirst<T, K>(g: seq<Record<T>>, key: T -> K)
    requires |g| == 4
    requires key(g[0].data) == key(g[3].data)
    requires key(g[0].data) != key(g[1].data) && key(g[0].data) != key(g[2].data)
    requires key(g[1].data) != key(g[2].data)
    ensures Dedup(g, key) == [g[1], g[2], g[3]]
  {
    assert g[..1][..0] == [];
    DedupSnoc(g[..1], key);
    UpsertNew([], g[0], key);
    assert Dedup(g[..1], key) == [g[0]];
    assert g[..2][..1] == g[..1];
    DedupSnoc(g[..2], key);
    UpsertNew([g[0]], g[1], key);
    assert Dedup(g[..2], key) == [g[0], g[1]];
    assert g[..3][..2] == g[..2];
    DedupSnoc(g[..3], key);
    UpsertNew([g[0], g[1]], g[2], key);
    assert Dedup(g[..3], key) == [g[0], g[1], g[2]];
    assert g[..4][..3] == g[..3];
    assert g[..4] == g;
    DedupSnoc(g, key);
    UpsertReplacesHead([g[0], g[1], g[2]], g[3], key);
    assert [g[0], g[1], g[2]][1..] == [g[1], g[2]];
  }

  lemma ConsumerCandidates()
    ensures Dedup(Keep(FirstWindowRecords(), InGroup(ServiceOf, ServiceConsumer)), IdOf)
         == [ Entry(ServiceConsumer, 2, 9700, 4000).record,
              Entry(ServiceConsumer, 4, 9600, 6000).record,
              Entry(ServiceConsumer, 1, 9500, 7000).record ]
  {
    ConsumerGroup();
    DedupReplacesFirst(Keep(FirstWindowRecords(), InGroup(ServiceOf, ServiceConsumer)), IdOf);
  }

  /** A single entry is already sorted. */
  lemma SortOne<T>(order: Order, c: Tuple2<T>)
    ensures Sort(order, [c]) == [c]
  {
    assert [c][1..] == [];
  }

  /** Two entries, larger first, are reversed by an ascending sort. */
  lemma SortTwoAsc<T>(b: Tuple2<T>, c: Tuple2<T>)
    requires b.sortKey > c.sortKey
    ensures Sort(Asc, [b, c]) == [c, b]
  {
    assert [b, c][1..] == [c];
    SortOne(Asc, c);
    assert [c][1..] == [];
  }

  /** Two entries, larger first, are kept by a descending sort. */
  lemma SortTwoDesc<T>(b: Tuple2<T>, c: Tuple2<T>)
    requires b.sortKey > c.sortKey
    ensures Sort(Desc, [b, c]) == [b, c]
  {
    assert [b, c][1..] == [c];
    SortOne(Desc, c);
  }

  /** Three entries, largest first, are reversed by an ascending sort. */
  lemma SortThreeAsc<T>(a: Tuple2<T>, b: Tuple2<T>, c: Tuple2<T>)
    requires a.sortKey > b.sortKey > c.sortKey
    ensures Sort(Asc, [a, b, c]) == [c, b, a]
  {
    assert [a, b, c][1..] == [b, c];
    SortTwoAsc(b, c);
    assert [c, b][1..] == [b];
    assert [b][1..] == [];
    assert Insert(Asc, a, []) == [a];
    assert Insert(Asc, a, [b]) == [b, a];
    assert Insert(Asc, a, [c, b]) == [c] + Insert(Asc, a, [b]);
  }

  /** Three entries, largest first, are kept by a descending sort. */
  lemma SortThreeDesc<T>(a: Tuple2<T>, b: Tuple2<T>, c: Tuple2<T>)
    requires a.sortKey > b.sortKey > c.sortKey
    ensures Sort(Desc, [a, b, c]) == [a, b, c]
  {
    assert [a, b, c][1..] == [b, c];
    SortTwoDesc(b, c);
  }

  /** A group's ranked list when it has exactly three candidates. */
  lemma RankThree<T, K, G>(rs: seq<Record<T>>, opts: Options<T, K, G>, t: seq<Tuple2<T>>)
    requires ToTuples(Dedup(rs, opts.key), opts.sortKey) == t
    requires |t| == 3 && t[0].sortKey > t[1].sortKey > t[2].sortKey
    ensures opts.order == Asc ==> RankGroup(rs, 3, opts) == [t[2], t[1], t[0]]
    ensures opts.order == Desc ==> RankGroup(rs, 3, opts) == t
  {
    var sorted := Sort(opts.order, t);
    assert |sorted| == 3 by {
      assert |multiset(sorted)| == |multiset(t)|;
    }
    assert RankGroup(rs, 3, opts) == sorted[..3] == sorted;
    assert t == [t[0], t[1], t[2]];
    if opts.order == Asc {
      SortThreeAsc(t[0], t[1], t[2]);
    } else {
      SortThreeDesc(t[0], t[1], t[2]);
    }
  }

  /** Keep over a three-element sequence whose only selected position is 0. */
  lemma KeepFirstOfThree<X>(w: seq<X>, p: X -> bool)
    requires |w| == 3
    requires p(w[0]) && !p(w[1]) && !p(w[2])
    ensures Keep(w, p) == [w[0]]
  {
    KeepCons(w[2..], p);
    assert w[2..][1..] == [];
    KeepCons(w[1..], p);
    assert w[1..][1..] == w[2..];
    KeepCons(w, p);
  }

  /** Keep over a seven-element sequence whose selected positions are 0, 2, 4. */
  lemma KeepEvenHead<X>(w: seq<X>, p: X -> bool)
    requires |w| == 7
    requires p(w[0]) && !p(w[1]) && p(w[2]) && !p(w[3]) && p(w[4]) && !p(w[5]) && !p(w[6])
    ensures Keep(w, p) == [w[0], w[2], w[4]]
  {
    KeepFirstOfThree(w[4..], p);
    KeepCons(w[3..], p);
    assert w[3..][1..] == w[4..];
    KeepCons(w[2..], p);
    assert w[2..][1..] == w[3..];
    assert Keep(w[2..], p) == [w[2], w[4]];
    KeepCons(w[1..], p);
    assert w[1..][1..] == w[2..];
    KeepCons(w, p);
  }

  lemma ProviderGroup()
    ensures Keep(FirstWindowRecords(), InGroup(ServiceOf, ServiceProvider))
         == [ Entry(ServiceProvider, 1, 10000, 1000).record,
              Entry(ServiceProvider, 2, 9800, 3000).record,
              Entry(ServiceProvider, 3, 9700, 5000).record ]
  {
    var w, p := FirstWindowRecords(), InGroup(ServiceOf, ServiceProvider);
    InServiceGroup(w, ServiceProvider);
    KeepEvenHead(w, p);
  }

  /** Last-write-wins on three records with distinct identities keeps them all. */
  lemma DedupDistinctThree<T, K>(g: seq<Record<T>>, key: T -> K)
    requires |g| == 3
    requires key(g[0].data) != key(g[1].data) && key(g[0].data) != key(g[2].data)
    requires key(g[1].data) != key(g[2].data)
    ensures Dedup(g, key) == g
  {
    assert g[..1][..0] == [];
    DedupSnoc(g[..1], key);
    UpsertNew([], g[0], key);
    assert Dedup(g[..1], key) == [g[0]];
    assert g[..2][..1] == g[..1];
    DedupSnoc(g[..2], key);
    UpsertNew([g[0]], g[1], key);
    assert Dedup(g[..2], key) == [g[0], g[1]];
    assert g[..3][..2] == g[..2];
    assert g[..3] == g;
    DedupSnoc(g, key);
    UpsertNew([g[0], g[1]], g[2], key);
  }

  lemma ProviderCandidates()
    ensures Dedup(Keep(FirstWindowRecords(), InGroup(ServiceOf, ServiceProvider)), IdOf)
         == [ Entry(ServiceProvider, 1, 10000, 1000).record,
              Entry(ServiceProvider, 2, 9800, 3000).record,
              Entry(ServiceProvider, 3, 9700, 5000).record ]
  {
    ProviderGroup();
    DedupDistinctThree(Keep(FirstWindowRecords(), InGroup(ServiceOf, ServiceProvider)), IdOf);
  }

  /** A group present in a window gets the ranked list of its records. */
  lemma RankWindowAt<T, K, G>(batch: seq<Record<T>>, n: nat, opts: Options<T, K, G>, i: nat, g: G)
    requires i < |batch| && opts.groupKey(batch[i].data) == g
    ensures g in RankWindow(batch, n, opts)
    ensures RankWindow(batch, n, opts)[g] == RankGroup(Keep(batch, InGroup(opts.groupKey, g)), n, opts)
  {
    assert g in Groups(batch, opts.groupKey);
  }

  /** Pairing three records with their sort keys. */
  lemma ToTuplesThree<T>(rs: seq<Record<T>>, sortKey: T -> int)
    requires |rs| == 3
    ensures ToTuples(rs, sortKey) == [Tuple2(sortKey(rs[0].data), rs[0]), Tuple2(sortKey(rs[1].data), rs[1]), Tuple2(sortKey(rs[2].data), rs[2])]
  {
  }

  /** The consumer group's list in the first window, under either order. */
  lemma ConsumerRanked(order: Order)
    ensures ServiceConsumer in RankWindow(FirstWindowRecords(), 3, TestOptions(order))
    ensures var a := [Entry(ServiceConsumer, 2, 9700, 4000), Entry(ServiceConsumer, 4, 9600, 6000), Entry(ServiceConsumer, 1, 9500, 7000)];
            RankWindow(FirstWindowRecords(), 3, TestOptions(order))[ServiceConsumer]
            == if order == Asc then [a[2], a[1], a[0]] else a
  {
    var opts := TestOptions(order);
    RankWindowAt(FirstWindowRecords(), 3, opts, 1, ServiceConsumer);
    ConsumerCandidates();
    var g := Keep(FirstWindowRecords(), InGroup(ServiceOf, ServiceConsumer));
    ToTuplesThree(Dedup(g, IdOf), ValueOf);
    RankThree(g, opts, ToTuples(Dedup(g, IdOf), ValueOf));
  }

  /** The provider group's list in the first window, under either order. */
  lemma ProviderRanked(order: Order)
    ensures ServiceProvider in RankWindow(FirstWindowRecords(), 3, TestOptions(order))
    ensures var a := [Entry(ServiceProvider, 1, 10000, 1000), Entry(ServiceProvider, 2, 9800, 3000), Entry(ServiceProvider, 3, 9700, 5000)];
            RankWindow(FirstWindowRecords(), 3, TestOptions(order))[ServiceProvider]
            == if order == Asc then [a[2], a[1], a[0]] else a
  {
    var opts := TestOptions(order);
    RankWindowAt(FirstWindowRecords(), 3, opts, 0, ServiceProvider);
    ProviderCandidates();
    var g := Keep(FirstWindowRecords(), InGroup(ServiceOf, ServiceProvider));
    ToTuplesThree(Dedup(g, IdOf), ValueOf);
    RankThree(g, opts, ToTuples(Dedup(g, IdOf), ValueOf));
  }

  /** The test input is timestamped throughout. */
  lemma InputTimed()
    ensures Timed(TopNInput())
  {
  }

  /** The first snapshot the sink receives ranks the records of the first
      window. */
  lemma PipelineFirst(order: Order)
    ensures Timed(TopNInput())
    ensures |TopNPipeline(TopNInput(), order)| >= 1
    ensures TopNPipeline(TopNInput(), order)[0] == RankWindow(FirstWindowRecords(), 3, TestOptions(order))
  {
    InputTimed();
    MappedInputIs();
    FirstWindow();
    FirstWindowIs();
    var ws := Windows(MappedInput(), WindowSize);
    assert TopNPipeline(TopNInput(), order) == TopNStage(ws, 3, TestOptions(order));
  }

  lemma FirstWindowIs()
    ensures MappedInput()[..7] == FirstWindowRecords()
  {
  }

  /** The ASC test ("Bottom3"): in the first snapshot each service's list
      holds its three smallest latest values, smallest first. */
  lemma Bottom3()
    ensures Timed(TopNInput())
    ensures |TopNPipeline(TopNInput(), Asc)| >= 1
    ensures ServiceConsumer in TopNPipeline(TopNInput(), Asc)[0]
    ensures TopNPipeline(TopNInput(), Asc)[0][ServiceConsumer]
         == [ Entry(ServiceConsumer, 1, 9500, 7000),
              Entry(ServiceConsumer, 4, 9600, 6000),
              Entry(ServiceConsumer, 2, 9700, 4000) ]
    ensures ServiceProvider in TopNPipeline(TopNInput(), Asc)[0]
    ensures TopNPipeline(TopNInput(), Asc)[0][ServiceProvider]
         == [ Entry(ServiceProvider, 3, 9700, 5000),
              Entry(ServiceProvider, 2, 9800, 3000),
              Entry(ServiceProvider, 1, 10000, 1000) ]
  {
    PipelineFirst(Asc);
    ConsumerRanked(Asc);
    ProviderRanked(Asc);
  }

  /** The DESC test ("Top3"), which gives no order and so gets the default:
      in the first snapshot each service's list holds its three largest
      latest values, largest first. */
  lemma Top3()
    ensures Timed(TopNInput())
    ensures |TopNPipeline(TopNInput(), DefaultOrder)| >= 1
    ensures ServiceConsumer in TopNPipeline(TopNInput(), DefaultOrder)[0]
    ensures TopNPipeline(TopNInput(), DefaultOrder)[0][ServiceConsumer]
         == [ Entry(ServiceConsumer, 2, 9700, 4000),
              Entry(ServiceConsumer, 4, 9600, 6000),
              Entry(ServiceConsumer, 1, 9500, 7000) ]
    ensures ServiceProvider in TopNPipeline(TopNInput(), DefaultOrder)[0]
    ensures TopNPipeline(TopNInput(), DefaultOrder)[0][ServiceProvider]
         == [ Entry(ServiceProvider, 1, 10000, 1000),
              Entry(ServiceProvider, 2, 9800, 3000),
              Entry(ServiceProvider, 3, 9700, 5000) ]
  {
    PipelineFirst(DefaultOrder);
    ConsumerRanked(DefaultOrder);
    ProviderRanked(DefaultOrder);
  }

  /** The ASC test as it reads the sink: the stage's snapshots drained
      into an empty slice sink, each wrapped in a stream record, and the
      first record's data holds the Bottom3 lists. */
  method Bottom3Sink() returns (sink: Slice<Record<map<Service, seq<Tuple2<Data>>>>>)
    ensures |sink.value| >= 1
    ensures ServiceConsumer in sink.value[0].data
    ensures sink.value[0].data[ServiceConsumer]
         == [ Entry(ServiceConsumer, 1, 9500, 7000),
              Entry(ServiceConsumer, 4, 9600, 6000),
              Entry(ServiceConsumer, 2, 9700, 4000) ]
    ensures ServiceProvider in sink.value[0].data
    ensures sink.value[0].data[ServiceProvider]
         == [ Entry(ServiceProvider, 3, 9700, 5000),
              Entry(ServiceProvider, 2, 9800, 3000),
              Entry(ServiceProvider, 1, 10000, 1000) ]
  {
    Bottom3();
    var snapshots := TopNPipeline(TopNInput(), Asc);
    sink := RunSlice(Slice([]), SliceSource(snapshots));
  }

  /** The DESC test as it reads the sink: the first record drained into
      the slice sink holds the Top3 lists. */
  method Top3Sink() returns (sink: Slice<Record<map<Service, seq<Tuple2<Data>>>>>)
    ensures |sink.value| >= 1
    ensures ServiceConsumer in sink.value[0].data
    ensures sink.value[0].data[ServiceConsumer]
         == [ Entry(ServiceConsumer, 2, 9700, 4000),
              Entry(ServiceConsumer, 4, 9600, 6000),
              Entry(ServiceConsumer, 1, 9500, 7000) ]
    ensures ServiceProvider in sink.value[0].data
    ensures sink.value[0].data[ServiceProvider]
         == [ Entry(ServiceProvider, 1, 10000, 1000),
              Entry(ServiceProvider, 2, 9800, 3000),
              Entry(ServiceProvider, 3, 9700, 5000) ]
  {
    Top3();
    var snapshots := TopNPipeline(TopNInput(), DefaultOrder);
    sink := RunSlice(Slice([]), SliceSource(snapshots));
  }
}
