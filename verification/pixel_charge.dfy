/**
 * The allpix PixelCharge objects the readers consume, reduced to the values
 * they read through getPixel().getIndex(), getCharge(), getGlobalTime() and
 * getLocalTime(). The objects themselves are foreign; only these values matter.
 */
module PixelCharge {

  /** One pixel-charge measurement. Times are doubles in the source and are only copied. */
  datatype Record = Record(pixelX: int, pixelY: int, charge: int, globalTime: real, localTime: real)

  /** One entry of a PixelCharge tree: the records of one simulated event. */
  type Event = seq<Record>

  /** Number of records over a sequence of events. */
  function TotalRecords(events: seq<Event>): nat {
    if |events| == 0 then 0 else |events[0]| + TotalRecords(events[1..])
  }

  lemma {:induction false} TotalRecordsAppend(a: seq<Event>, b: seq<Event>)
    ensures TotalRecords(a + b) == TotalRecords(a) + TotalRecords(b)
  {
    if |a| > 0 {
      assert (a + b)[1..] == a[1..] + b;
      TotalRecordsAppend(a[1..], b);
    } else {
      assert a + b == b;
    }
  }

  /** The events of several trees, tree after tree (TTree::MergeTrees). */
  function Concat(trees: seq<seq<Event>>): seq<Event> {
    if |trees| == 0 then [] else trees[0] + Concat(trees[1..])
  }

  lemma {:induction false} ConcatEmpty(trees: seq<seq<Event>>)
    requires Concat(trees) == []
    ensures forall k :: 0 <= k < |trees| ==> trees[k] == []
  {
    if |trees| > 0 {
      ConcatEmpty(trees[1..]);
      forall k | 1 <= k < |trees|
        ensures trees[k] == []
      {
        assert trees[k] == trees[1..][k - 1];
      }
    }
  }
}
