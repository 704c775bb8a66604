/** The stateless part of the streaming pipeline: records, the Filter and Map
    operators, the slice source and sink of the streaming tests, and their
    `numberRange` helper. A pipeline is modelled as a function on the finite
    sequence of records that reaches each stage. */
module Flow {
  import opened Wrappers
  import opened Seqs

  /** A stream record: a payload and, once a window stage is involved, an
      event timestamp in milliseconds. */
  datatype Record<T> = Record(data: T, ts: Option<int>)

  /** A record as a source emits it before any window stage: no timestamp. */
  function WithoutTS<T>(data: T): Record<T> {
    Record(data, None)
  }

  /** A record carrying the event time `ts`. */
  function WithTS<T>(data: T, ts: int): Record<T> {
    Record(data, Some(ts))
  }

  /** The test helper `numberRange(begin, count)`: the integers of
      [begin, begin + count) in increasing order, built by appending. */
  function NumberRange(begin: int, count: int): (r: seq<int>)
    ensures |r| == if count <= 0 then 0 else count
    ensures forall i :: 0 <= i < |r| ==> r[i] == begin + i
    decreases count
  {
    if count <= 0 then [] else NumberRange(begin, count - 1) + [begin + count - 1]
  }

  /** The slice source: each value becomes one record without a timestamp. */
  function SliceSource<T>(values: seq<T>): (r: seq<Record<T>>)
    ensures |r| == |values|
    ensures forall i :: 0 <= i < |values| ==> r[i] == WithoutTS(values[i])
  {
    if |values| == 0 then [] else [WithoutTS(values[0])] + SliceSource(values[1..])
  }

  /** A payload predicate lifted to records. */
  function OnData<T>(pred: T -> bool): Record<T> -> bool {
    (x: Record<T>) => pred(x.data)
  }

  /** The Filter operator: the records whose payload satisfies `pred`, in
      input order, each passed on unchanged (timestamp included). */
  function Filter<T>(s: seq<Record<T>>, pred: T -> bool): (r: seq<Record<T>>)
    ensures forall x :: x in r ==> x in s && pred(x.data)
  {
    Keep(s, OnData(pred))
  }

  /** Filter drops exactly the records whose predicate is false and keeps
      every other occurrence. */
  lemma FilterCounts<T>(s: seq<Record<T>>, pred: T -> bool)
    ensures forall x :: multiset(Filter(s, pred))[x] == if pred(x.data) then multiset(s)[x] else 0
  {
    KeepCounts(s, OnData(pred));
  }

  /** Filtering a stream piecewise is filtering it at once: the output of
      the first part precedes the output of the second. */
  lemma FilterConcat<T>(a: seq<Record<T>>, b: seq<Record<T>>, pred: T -> bool)
    ensures Filter(a + b, pred) == Filter(a, pred) + Filter(b, pred)
  {
    KeepConcat(a, b, OnData(pred));
  }

  /** The Map operator: exactly one output per input, in order, carrying the
      transformed payload and the input's timestamp. */
  function Map<T, U>(s: seq<Record<T>>, f: T -> U): (r: seq<Record<U>>)
    ensures |r| == |s|
    ensures forall i :: 0 <= i < |s| ==> r[i] == Record(f(s[i].data), s[i].ts)
  {
    if |s| == 0 then [] else [Record(f(s[0].data), s[0].ts)] + Map(s[1..], f)
  }

  /** Mapping a stream piecewise is mapping it at once. */
  lemma {:induction false} MapConcat<T, U>(a: seq<Record<T>>, b: seq<Record<T>>, f: T -> U)
    ensures Map(a + b, f) == Map(a, f) + Map(b, f)
  {
    var l, r := Map(a + b, f), Map(a, f) + Map(b, f);
    assert |l| == |r|;
    forall i | 0 <= i < |l|
      ensures l[i] == r[i]
    {
      if i < |a| {
        assert (a + b)[i] == a[i];
      } else {
        assert (a + b)[i] == b[i - |a|];
      }
    }
  }

  /** The test sink: its value is the sequence of everything it received. */
  datatype Slice<R> = Slice(value: seq<R>)

  /** The sink's run loop: every record received is appended to the value,
      in the order received. */
  method RunSlice<R>(sink: Slice<R>, received: seq<R>) returns (drained: Slice<R>)
    ensures drained.value == sink.value + received
  {
    drained := sink;
    var i := 0;
    while i < |received|
      invariant 0 <= i <= |received|
      invariant drained.value == sink.value + received[..i]
    {
      drained := Slice(drained.value + [received[i]]);
      i := i + 1;
    }
    assert received[..|received|] == received;
  }
}
