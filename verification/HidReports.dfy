/** The queue of input reports of a HID device: what the critical sections of
    read_callback, return_data and hid_close do to it. */
module HidReports {
  import opened Common

  type Report = seq<Byte>

  /** The longest queue any critical section leaves behind.  The source counts the links it
      follows and drops the oldest report when that count exceeds 30. */
  const MAX_QUEUED := 32

  /** The queue after a report arrives. */
  function Enqueue(queue: seq<Report>, report: Report): (q: seq<Report>)
  {
    if |queue| >= MAX_QUEUED then queue[1..] + [report] else queue + [report]
  }

  /** The report that makes room for the new one, if any. */
  function Overflow(queue: seq<Report>): seq<Report> {
    if |queue| >= MAX_QUEUED then [queue[0]] else []
  }

  /** Nothing is lost but the overflowing report, and the bound is kept. */
  lemma EnqueueConserves(queue: seq<Report>, report: Report)
    ensures Overflow(queue) + Enqueue(queue, report) == queue + [report]
    ensures Overflow(queue) != [] <==> |queue| >= 32
    ensures |queue| <= 32 ==> |Enqueue(queue, report)| <= 32
  {
    if |queue| >= MAX_QUEUED {
      assert queue == [queue[0]] + queue[1..];
    }
  }

  class HidDevice {
    var inputReports: seq<Report>

    constructor ()
      ensures inputReports == []
    {
      inputReports := [];
    }

    /** Copies the oldest report into the caller's buffer and unlinks it. */
    method ReturnData(data: array?<Byte>, length: nat) returns (len: nat)
      requires inputReports != []
      requires length <= if data == null then 0 else data.Length
      modifies this, data
      ensures inputReports == old(inputReports)[1..]
      ensures len == Min(length, |old(inputReports)[0]|)
      ensures data != null ==> data[..] == old(inputReports)[0][..len] + old(data[..])[len..]
    {
      var rpt := inputReports[0];
      len := if length < |rpt| then length else |rpt|;
      if len > 0 {
        var i := 0;
        while i < len
          invariant 0 <= i <= len
          invariant forall k | 0 <= k < i :: data[k] == rpt[k]
          invariant forall k | i <= k < data.Length :: data[k] == old(data[k])
          invariant inputReports == old(inputReports)
        {
          data[i] := rpt[i];
          i := i + 1;
        }
      }
      inputReports := inputReports[1..];
    }

    /** The critical section of read_callback for a completed transfer.  The result says
        whether the condition variable was signalled. */
    method AttachReport(report: Report) returns (signalled: bool)
      modifies this
      ensures inputReports == Enqueue(old(inputReports), report)
      ensures signalled <==> old(inputReports) == []
    {
      if |inputReports| == 0 {
        inputReports := [report];
        signalled := true;
      } else {
        signalled := false;
        var cur, numQueued := 0, 0;
        while cur + 1 < |inputReports|
          invariant numQueued == cur < |inputReports| == |old(inputReports)|
          invariant inputReports == old(inputReports)
        {
          cur, numQueued := cur + 1, numQueued + 1;
        }
        inputReports := inputReports + [report];
        if numQueued > 30 {
          var _ := ReturnData(null, 0);
        }
      }
    }

    /** hid_close empties the queue by discarding reports one at a time. */
    method ClearReports() returns (discarded: seq<Report>)
      modifies this
      ensures inputReports == [] && discarded == old(inputReports)
    {
      discarded := [];
      while |inputReports| > 0
        invariant discarded + inputReports == old(inputReports)
        decreases |inputReports|
      {
        discarded := discarded + [inputReports[0]];
        var _ := ReturnData(null, 0);
      }
    }
  }
}
