/** FIFO channels as append-only logs in which watermarks stand between the records. */
module Streams {

  datatype Message<+T> = Record(value: T) | Mark(watermark: int)

  /** Every watermark that a reader of `log` meets before position `p` is below `bound`. */
  ghost predicate MarksBelow<T>(log: seq<Message<T>>, p: nat, bound: int)
    requires p <= |log|
  {
    forall j :: 0 <= j < p && log[j].Mark? ==> log[j].watermark < bound
  }

  function Records<T>(values: seq<T>): (log: seq<Message<T>>)
    ensures |log| == |values|
    ensures forall j :: 0 <= j < |log| ==> log[j] == Record(values[j])
  {
    seq(|values|, j requires 0 <= j < |values| => Record(values[j]))
  }

  lemma RecordsAppend<T>(a: seq<T>, b: seq<T>)
    ensures Records(a + b) == Records(a) + Records(b)
  {
  }
}
