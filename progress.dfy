/** ProgressTrackingReader of s3Backup.go: a wrapper around the file being
    uploaded that counts the bytes the uploader has read from it. The count
    of a read is added to the position only at the next report, which Read
    makes before reading and Close makes when it is called.

    The wrapped file is not modelled: each underlying read is an input,
    its byte count and whether it returned an error. The rendering of the
    progress bar and the time of the last read are left out. */
module Progress {

  /** The result of one Read of the wrapped file. */
  datatype ReadOutcome = ReadOutcome(count: nat, ok: bool)

  /** The bytes of the reads that returned no error. */
  function Delivered(outcomes: seq<ReadOutcome>): nat
  {
    if outcomes == [] then 0
    else
      var last := outcomes[|outcomes| - 1];
      Delivered(outcomes[..|outcomes| - 1]) + (if last.ok then last.count else 0)
  }

  /** The bytes of all reads, failed or not. */
  function Attempted(outcomes: seq<ReadOutcome>): nat
  {
    if outcomes == [] then 0
    else Attempted(outcomes[..|outcomes| - 1]) + outcomes[|outcomes| - 1].count
  }

  class ProgressTrackingReader {
    const totalSize: int
    var currentPosition: int
    var lastRead: int
    /** The underlying reads made so far. */
    ghost var Outcomes: seq<ReadOutcome>

    /** The position plus the count not yet reported is what the successful
        reads delivered. */
    ghost predicate Valid()
      reads this
    {
      0 <= lastRead && 0 <= currentPosition && currentPosition + lastRead == Delivered(Outcomes)
    }

    /** NewProgressTrackingReader: nothing read, nothing reported. */
    constructor (totalSize: int)
      ensures Valid()
      ensures this.totalSize == totalSize
      ensures currentPosition == 0 && lastRead == 0 && Outcomes == []
    {
      this.totalSize := totalSize;
      currentPosition := 0;
      lastRead := 0;
      Outcomes := [];
    }

    /** ReportProgress: moves the pending count into the position. */
    method ReportProgress()
      requires Valid()
      modifies this
      ensures Valid()
      ensures currentPosition == old(currentPosition) + old(lastRead)
      ensures lastRead == 0
      ensures Outcomes == old(Outcomes)
    {
      currentPosition := currentPosition + lastRead;
      lastRead := 0;
    }

    /** Read: reports, then reads; the count is kept only if the read
        returned no error. The underlying outcome is passed through. */
    method Read(next: ReadOutcome) returns (readCount: nat, ok: bool)
      requires Valid()
      modifies this
      ensures Valid()
      ensures readCount == next.count && ok == next.ok
      ensures currentPosition == old(currentPosition) + old(lastRead)
      ensures lastRead == if next.ok then next.count else 0
      ensures Outcomes == old(Outcomes) + [next]
    {
      ReportProgress();
      readCount, ok := next.count, next.ok;
      if ok {
        lastRead := readCount;
      }
      Outcomes := Outcomes + [next];
    }

    /** Close: a final report, after which the position is all delivered
        bytes. */
    method Close()
      requires Valid()
      modifies this
      ensures Valid()
      ensures currentPosition == Delivered(Outcomes)
      ensures lastRead == 0
      ensures Outcomes == old(Outcomes)
    {
      ReportProgress();
    }
  }

  /** A caller that makes k reads and then closes the reader: the final
      position is the sum of the counts of the successful reads. It is at
      most the bytes read, and equal to them iff no positive-count read
      failed. */
  method ReadAll(totalSize: int, outcomes: seq<ReadOutcome>) returns (position: int)
    ensures position == Delivered(outcomes)
    ensures position <= Attempted(outcomes)
    ensures (forall i :: 0 <= i < |outcomes| && outcomes[i].count > 0 ==> outcomes[i].ok)
        <==> position == Attempted(outcomes)
  {
    var reader := new ProgressTrackingReader(totalSize);
    var i := 0;
    while i < |outcomes|
      invariant 0 <= i <= |outcomes|
      invariant reader.Valid()
      invariant reader.Outcomes == outcomes[..i]
    {
      var _, _ := reader.Read(outcomes[i]);
      assert outcomes[..i + 1] == outcomes[..i] + [outcomes[i]];
      i := i + 1;
    }
    assert outcomes[..i] == outcomes;
    reader.Close();
    position := reader.currentPosition;
    DeliveredAtMostAttempted(outcomes);
  }

  /** The upload's use of the reader: reads until one returns an error
      (io.EOF at the end of the file), with no Close on the reader itself.
      The last report is the one made inside the last read, so the position
      covers every read but the last; when the last read failed, that is
      every delivered byte. */
  method ReadWithoutClose(totalSize: int, outcomes: seq<ReadOutcome>) returns (position: int)
    ensures outcomes == [] ==> position == 0
    ensures outcomes != [] ==> position == Delivered(outcomes[..|outcomes| - 1])
    ensures outcomes != [] && !outcomes[|outcomes| - 1].ok ==> position == Delivered(outcomes)
    ensures position <= Attempted(outcomes)
  {
    var reader := new ProgressTrackingReader(totalSize);
    var i := 0;
    while i < |outcomes|
      invariant 0 <= i <= |outcomes|
      invariant reader.Valid()
      invariant reader.Outcomes == outcomes[..i]
      invariant i == 0 ==> reader.currentPosition == 0
      invariant i > 0 ==> reader.currentPosition == Delivered(outcomes[..i - 1])
    {
      var _, _ := reader.Read(outcomes[i]);
      assert outcomes[..i + 1][..i] == outcomes[..i];
      assert outcomes[..i + 1] == outcomes[..i] + [outcomes[i]];
      i := i + 1;
    }
    assert outcomes[..i] == outcomes;
    position := reader.currentPosition;
    if outcomes != [] {
      DeliveredAtMostAttempted(outcomes[..|outcomes| - 1]);
    }
  }

  /** A report right after another leaves the position where it was: after
      one read, two reports both show that read's count (or 0 on error). */
  method ReportTwice(totalSize: int, first: ReadOutcome) returns (afterFirst: int, afterSecond: int)
    ensures afterFirst == afterSecond
    ensures afterFirst == if first.ok then first.count else 0
  {
    var reader := new ProgressTrackingReader(totalSize);
    var _, _ := reader.Read(first);
    reader.ReportProgress();
    afterFirst := reader.currentPosition;
    reader.ReportProgress();
    afterSecond := reader.currentPosition;
  }

  /** Failed reads count for nothing: the delivered bytes never exceed the
      bytes read, and equal them exactly when no positive-count read failed.
      The position is at most the delivered bytes, and equal to them after a
      final report. */
  lemma {:induction false} DeliveredAtMostAttempted(outcomes: seq<ReadOutcome>)
    ensures Delivered(outcomes) <= Attempted(outcomes)
    ensures (forall i :: 0 <= i < |outcomes| && outcomes[i].count > 0 ==> outcomes[i].ok)
        <==> Delivered(outcomes) == Attempted(outcomes)
  {
    if outcomes != [] {
      var init := outcomes[..|outcomes| - 1];
      DeliveredAtMostAttempted(init);
      assert forall i :: 0 <= i < |init| ==> init[i] == outcomes[i];
    }
  }
}
