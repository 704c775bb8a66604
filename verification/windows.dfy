/** The tumbling event-time window assigner of the streaming tests
    (`NewTumblingTimeWindows(size, size)`), over a finite input: every record
    goes to the bucket [start, start + size) holding its timestamp, and every
    bucket is emitted once, as one batch, in increasing start order. */
module Tumbling {
  import opened Wrappers
  import opened Seqs
  import opened Flow

  /** One emitted window: its bounds (end exclusive) and its records. */
  datatype TimeWindow<T> = TimeWindow(start: int, end: int, records: seq<Record<T>>)

  /** The start of the tumbling bucket holding event time `ts`: the largest
      multiple of `size` not after `ts`. */
  function WindowStart(ts: int, size: int): (start: int)
    requires size > 0
    ensures start <= ts < start + size
  {
    DivMod(ts, size);
    (ts / size) * size
  }

  lemma DivMod(ts: int, size: int)
    requires size > 0
    ensures ts == (ts / size) * size + ts % size
    ensures 0 <= ts % size < size
  {
  }

  lemma MulPos(d: int, size: int)
    requires d >= 1 && size > 0
    ensures d * size >= size
  {
    if d > 1 {
      MulPos(d - 1, size);
      assert d * size == (d - 1) * size + size;
    }
  }

  /** Buckets partition the time line: the only multiple of `size` whose
      bucket holds `ts` is WindowStart(ts, size). */
  lemma WindowStartUnique(ts: int, size: int, k: int)
    requires size > 0
    requires k * size <= ts < k * size + size
    ensures k * size == WindowStart(ts, size)
  {
    var b := ts / size;
    DivMod(ts, size);
    if k < b {
      MulPos(b - k, size);
    } else if k > b {
      MulPos(k - b, size);
    }
  }

  /** Every record of `s` carries an event timestamp, as a window stage demands. */
  predicate Timed<T>(s: seq<Record<T>>) {
    forall i :: 0 <= i < |s| ==> s[i].ts.Some?
  }

  /** The start of the bucket a timestamped record belongs to. */
  function StartOf<T>(x: Record<T>, size: int): int
    requires size > 0 && x.ts.Some?
  {
    WindowStart(x.ts.value, size)
  }

  /** Membership of a record in the bucket starting at `w`. */
  function InBucket<T>(size: int, w: int): Record<T> -> bool
    requires size > 0
  {
    (x: Record<T>) => x.ts.Some? && WindowStart(x.ts.value, size) == w
  }

  /** Membership of a record in any bucket other than the one starting at `w`. */
  function OutsideBucket<T>(size: int, w: int): Record<T> -> bool
    requires size > 0
  {
    (x: Record<T>) => !(x.ts.Some? && WindowStart(x.ts.value, size) == w)
  }

  /** The records of bucket `w`, in input order. */
  function Bucket<T>(s: seq<Record<T>>, size: int, w: int): seq<Record<T>>
    requires size > 0
  {
    Keep(s, InBucket(size, w))
  }

  /** The earliest bucket start among the records of `s`. */
  function MinStart<T>(s: seq<Record<T>>, size: int): (w: int)
    requires size > 0 && |s| > 0 && Timed(s)
    ensures exists i :: 0 <= i < |s| && s[i].ts.Some? && StartOf(s[i], size) == w
    ensures forall x :: x in s ==> w <= StartOf(x, size)
  {
    if |s| == 1 then StartOf(s[0], size)
    else
      assert s[0] in s;
      var m := MinStart(s[1..], size);
      assert forall x :: x in s ==> x == s[0] || x in s[1..];
      if StartOf(s[0], size) <= m then StartOf(s[0], size) else m
  }

  /** All records of all windows, window after window. */
  function Flatten<T>(ws: seq<TimeWindow<T>>): seq<Record<T>> {
    if |ws| == 0 then [] else ws[0].records + Flatten(ws[1..])
  }

  /** The properties every window sequence emitted for `s` has: bounds of
      width `size`, no empty window, each window holding exactly its
      bucket's records in input order, strictly increasing starts (so no
      bucket is emitted twice), and every record emitted exactly once. */
  ghost predicate WindowsOf<T>(s: seq<Record<T>>, size: int, ws: seq<TimeWindow<T>>)
    requires size > 0
  {
    && (forall j :: 0 <= j < |ws| ==> ws[j].end == ws[j].start + size && |ws[j].records| > 0)
    && (forall j :: 0 <= j < |ws| ==> ws[j].records == Bucket(s, size, ws[j].start))
    && (forall i, j :: 0 <= i < j < |ws| ==> ws[i].start < ws[j].start)
    && multiset(Flatten(ws)) == multiset(s)
  }

  /** The window assigner over a finite input: the earliest open bucket is
      emitted first with all its records, then the rest of the input is
      bucketed the same way. */
  function Windows<T>(s: seq<Record<T>>, size: int): (ws: seq<TimeWindow<T>>)
    requires size > 0 && Timed(s)
    ensures WindowsOf(s, size, ws)
    decreases |s|
  {
    if |s| == 0 then []
    else
      var w := MinStart(s, size);
      WindowsStep(s, size, w);
      var tail := Windows(Keep(s, OutsideBucket(size, w)), size);
      WindowsCons(s, size, w, tail);
      [TimeWindow(w, w + size, Bucket(s, size, w))] + tail
  }

  /** The facts the recursive step of Windows rests on. */
  lemma WindowsStep<T>(s: seq<Record<T>>, size: int, w: int)
    requires size > 0 && |s| > 0 && Timed(s) && w == MinStart(s, size)
    ensures |Bucket(s, size, w)| > 0
    ensures |Keep(s, OutsideBucket(size, w))| < |s|
    ensures Timed(Keep(s, OutsideBucket(size, w)))
    ensures multiset(Bucket(s, size, w)) + multiset(Keep(s, OutsideBucket(size, w))) == multiset(s)
  {
    var p, q := InBucket<T>(size, w), OutsideBucket<T>(size, w);
    var i :| 0 <= i < |s| && s[i].ts.Some? && StartOf(s[i], size) == w;
    KeepComplete(s, p, s[i]);
    KeepPartition(s, p, q);
    var rest := Keep(s, q);
    forall j | 0 <= j < |rest|
      ensures rest[j].ts.Some?
    {
      assert rest[j] in rest;
    }
  }

  /** Prepending the earliest bucket to the windows of the remaining records
      gives the windows of the whole input. */
  lemma WindowsCons<T>(s: seq<Record<T>>, size: int, w: int, tail: seq<TimeWindow<T>>)
    requires size > 0 && |s| > 0 && Timed(s) && w == MinStart(s, size)
    requires |Bucket(s, size, w)| > 0
    requires multiset(Bucket(s, size, w)) + multiset(Keep(s, OutsideBucket(size, w))) == multiset(s)
    requires WindowsOf(Keep(s, OutsideBucket(size, w)), size, tail)
    ensures WindowsOf(s, size, [TimeWindow(w, w + size, Bucket(s, size, w))] + tail)
  {
    var q := OutsideBucket<T>(size, w);
    var rest := Keep(s, q);
    var ws := [TimeWindow(w, w + size, Bucket(s, size, w))] + tail;
    forall j | 0 <= j < |tail|
      ensures tail[j].records == Bucket(s, size, tail[j].start)
      ensures w < tail[j].start
    {
      var x := tail[j].records[0];
      assert x in Bucket(rest, size, tail[j].start);
      assert x in rest;
      assert x in s;
      assert w != tail[j].start;
      KeepKeep(s, q, InBucket(size, tail[j].start));
    }
    assert ws[1..] == tail;
    assert Flatten(ws) == Bucket(s, size, w) + Flatten(tail);
  }
}
