// The edge access-log pipeline: lines of an append-only log are queued on disk
// in segments, uploaded in batches and acknowledged by moving a cursor.
module LogQueue {
  import opened Options
  import opened LogLines

  datatype Segment = Segment(sequence: nat, data: string)

  datatype Cursor = Cursor(segment: nat, offset: nat)

  datatype Limits = Limits(segmentBytes: nat, queueBytes: nat, batchRecords: nat)

  // Bounds that the limits keep, for a queue that kept them at the start.
  datatype Bounds = Bounds(queue: nat, segment: nat) {
    predicate Above(limits: Limits) {
      queue >= limits.queueBytes && segment >= limits.segmentBytes
    }
  }

  const BATCH_BYTES: nat := 4194304
  const TOKEN_BYTES: nat := 1048576
  const READ_BUFFER: nat := 65536
  const LAST_SEQUENCE: nat := 0xFFFF_FFFF_FFFF_FFFF

  // ---------- the queue as one text ----------

  ghost function AllText(segments: seq<Segment>): string {
    if segments == [] then "" else AllText(Front(segments)) + Last(segments).data
  }

  function Total(segments: seq<Segment>): nat {
    if segments == [] then 0 else Total(Front(segments)) + |Last(segments).data|
  }

  // Where reading starts in the oldest segment.
  function ReadStart(segments: seq<Segment>, cursor: Option<Cursor>): nat {
    if segments != [] && cursor.Some? && cursor.value.segment == segments[0].sequence then cursor.value.offset else 0
  }

  // The text from a position in the oldest segment on.
  ghost function TextFrom(segments: seq<Segment>, start: nat): string
    requires segments != [] ==> start <= |segments[0].data|
  {
    if segments == [] then ""
    else if |segments| == 1 then segments[0].data[start..]
    else TextFrom(Front(segments), start) + Last(segments).data
  }

  predicate Sorted(segments: seq<Segment>) {
    |segments| < 2 || (Sorted(Front(segments)) && Last(Front(segments)).sequence < Last(segments).sequence)
  }

  lemma {:induction false} SortedTail(segments: seq<Segment>)
    requires |segments| >= 2 && Sorted(segments)
    ensures Sorted(segments[1..]) && segments[0].sequence < segments[1].sequence
  {
    if |segments| > 2 {
      SortedTail(Front(segments));
      assert Front(segments)[1..] == Front(segments[1..]);
    }
  }

  ghost predicate AllComplete(segments: seq<Segment>) {
    forall s :: s in segments ==> Complete(s.data)
  }

  // The cursor is not ahead of the oldest segment, and between two records.
  ghost predicate CursorOk(oldest: Segment, cursor: Option<Cursor>) {
    cursor.Some? ==>
      && cursor.value.segment <= oldest.sequence
      && (cursor.value.segment == oldest.sequence ==>
            cursor.value.offset <= |oldest.data| && Complete(oldest.data[..cursor.value.offset]))
  }

  lemma {:induction false} SortedBelowLast(segments: seq<Segment>)
    requires segments != [] && Sorted(segments)
    ensures forall s :: s in segments ==> s.sequence <= Last(segments).sequence
  {
    if |segments| >= 2 {
      SortedBelowLast(Front(segments));
      assert segments == Front(segments) + [Last(segments)];
    }
  }

  // The last number that a segment or the cursor has taken.
  function Newest(segments: seq<Segment>, cursor: Option<Cursor>): nat {
    var last := if segments != [] then Last(segments).sequence else 0;
    if cursor.Some? && cursor.value.segment > last then cursor.value.segment else last
  }

  lemma NoneAboveNewest(segments: seq<Segment>, cursor: Option<Cursor>)
    requires Sorted(segments)
    ensures forall s :: s in segments ==> s.sequence <= Newest(segments, cursor)
  {
    if segments != [] {
      SortedBelowLast(segments);
    }
  }

  predicate Exhausted(segments: seq<Segment>, cursor: Option<Cursor>) {
    Newest(segments, cursor) >= LAST_SEQUENCE
  }

  // What directory and cursor look like after any run, crashed or not.
  ghost predicate QueueOk(segments: seq<Segment>, cursor: Option<Cursor>) {
    && Sorted(segments) && AllComplete(segments)
    && (segments != [] ==> CursorOk(segments[0], cursor))
  }

  // What is still to be read.
  ghost function Rest(segments: seq<Segment>, cursor: Option<Cursor>): string
    requires QueueOk(segments, cursor)
  {
    TextFrom(segments, ReadStart(segments, cursor))
  }

  lemma Regroup(a: string, b: string, c: string)
    ensures (a + b) + c == a + (b + c)
  {
  }

  lemma {:induction false} AllTextComplete(segments: seq<Segment>)
    requires AllComplete(segments)
    ensures Complete(AllText(segments))
  {
    if segments != [] {
      AllTextComplete(Front(segments));
      CompleteConcat(AllText(Front(segments)), Last(segments).data);
    }
  }

  // Seen from the oldest segment.
  lemma {:induction false} TextFromOldest(segments: seq<Segment>, start: nat)
    requires segments != [] && start <= |segments[0].data|
    ensures TextFrom(segments, start) == segments[0].data[start..] + AllText(segments[1..])
  {
    if |segments| == 1 {
      assert segments[1..] == [];
      assert segments[0].data[start..] + "" == segments[0].data[start..];
    } else {
      TextFromOldest(Front(segments), start);
      assert Front(segments)[1..] == Front(segments[1..]);
      Regroup(segments[0].data[start..], AllText(Front(segments[1..])), Last(segments).data);
    }
  }

  lemma {:induction false} AllTextIsFromZero(segments: seq<Segment>)
    ensures AllText(segments) == TextFrom(segments, 0)
  {
    if segments == [] {
    } else if |segments| == 1 {
      assert segments[0].data[0..] == segments[0].data;
      assert AllText(Front(segments)) == "";
    } else {
      AllTextIsFromZero(Front(segments));
    }
  }

  lemma TextFromComplete(segments: seq<Segment>, start: nat)
    requires segments != [] && start <= |segments[0].data|
    requires AllComplete(segments) && Complete(segments[0].data[..start])
    ensures Complete(TextFrom(segments, start))
  {
    TextFromOldest(segments, start);
    AllTextComplete(segments[1..]);
    CompleteConcat(segments[0].data[start..], AllText(segments[1..]));
  }

  lemma RestComplete(segments: seq<Segment>, cursor: Option<Cursor>)
    requires QueueOk(segments, cursor)
    ensures Complete(Rest(segments, cursor))
  {
    if segments != [] {
      TextFromComplete(segments, ReadStart(segments, cursor));
    }
  }

  // A new newest segment.
  lemma Push(segments: seq<Segment>, start: nat, s: Segment)
    requires segments != [] ==> start <= |segments[0].data|
    ensures Total(segments + [s]) == Total(segments) + |s.data|
    ensures segments != [] ==> TextFrom(segments + [s], start) == TextFrom(segments, start) + s.data
    ensures TextFrom([s], 0) == s.data
  {
    assert Front(segments + [s]) == segments;
  }

  function Grow(s: Segment, record: string): Segment {
    Segment(s.sequence, s.data + record)
  }

  function Grown(segments: seq<Segment>, record: string): seq<Segment>
    requires segments != []
  {
    Front(segments) + [Grow(Last(segments), record)]
  }

  lemma GrowText(segments: seq<Segment>, start: nat, record: string)
    requires segments != [] && start <= |segments[0].data|
    ensures Last(Grown(segments, record)) == Grow(Last(segments), record)
    ensures TextFrom(Grown(segments, record), start) == TextFrom(segments, start) + record
    ensures Total(Grown(segments, record)) == Total(segments) + |record|
  {
    assert segments == Front(segments) + [Last(segments)];
    if |segments| == 1 {
      GrowOnly(segments[0], start, record);
    } else {
      GrowBehind(Front(segments), start, Last(segments), record);
    }
  }

  lemma GrowOnly(s: Segment, start: nat, record: string)
    requires start <= |s.data|
    ensures TextFrom([] + [Grow(s, record)], start) == TextFrom([s], start) + record
    ensures Total([] + [Grow(s, record)]) == Total([s]) + |record|
  {
    assert [] + [Grow(s, record)] == [Grow(s, record)];
    assert (s.data + record)[start..] == s.data[start..] + record;
    Push([], 0, s);
    Push([], 0, Grow(s, record));
  }

  lemma GrowBehind(front: seq<Segment>, start: nat, last: Segment, record: string)
    requires front != [] && start <= |front[0].data|
    ensures TextFrom(front + [Grow(last, record)], start) == TextFrom(front + [last], start) + record
    ensures Total(front + [Grow(last, record)]) == Total(front + [last]) + |record|
  {
    Push(front, start, last);
    Push(front, start, Grow(last, record));
    Regroup(TextFrom(front, start), last.data, record);
  }

  lemma GrowOk(segments: seq<Segment>, cursor: Option<Cursor>, record: string)
    requires QueueOk(segments, cursor) && segments != [] && Complete(record)
    ensures QueueOk(Grown(segments, record), cursor)
    ensures ReadStart(Grown(segments, record), cursor) == ReadStart(segments, cursor)
  {
    var grown := Grown(segments, record);
    CompleteConcat(Last(segments).data, record);
    if cursor.Some? && cursor.value.segment == grown[0].sequence {
      assert grown[0].data[..cursor.value.offset] == segments[0].data[..cursor.value.offset];
    }
  }

  // A record at the end of the newest segment is a record at the end of what
  // is still to be read.
  lemma GrowRest(segments: seq<Segment>, cursor: Option<Cursor>, record: string)
    requires QueueOk(segments, cursor) && segments != [] && Complete(record)
    ensures QueueOk(Grown(segments, record), cursor)
    ensures Rest(Grown(segments, record), cursor) == Rest(segments, cursor) + record
    ensures Total(Grown(segments, record)) == Total(segments) + |record|
  {
    GrowOk(segments, cursor, record);
    GrowText(segments, ReadStart(segments, cursor), record);
  }

  predicate IsRecord(text: string) {
    text != "" && text[|text| - 1] == '\n' && '\n' !in text[..|text| - 1]
  }

  // Neither the queue nor a segment is over its bound, except for a segment
  // that is a single record.
  ghost predicate Bounded(segments: seq<Segment>, bounds: Bounds) {
    && Total(segments) <= bounds.queue
    && forall s :: s in segments ==> |s.data| <= bounds.segment || IsRecord(s.data)
  }

  lemma GrowBounded(segments: seq<Segment>, record: string, bounds: Bounds)
    requires segments != [] && Bounded(segments, bounds)
    requires Total(segments) + |record| <= bounds.queue
    requires |Last(segments).data| + |record| <= bounds.segment || (Last(segments).data == "" && IsRecord(record))
    ensures Bounded(Grown(segments, record), bounds)
  {
    assert Last(segments).data == "" ==> Last(segments).data + record == record;
    GrowText(segments, 0, record);
  }

  // A new empty segment adds nothing to read.
  lemma OpenRest(segments: seq<Segment>, cursor: Option<Cursor>, sequence: nat, bounds: Bounds)
    requires QueueOk(segments, cursor) && Bounded(segments, bounds) && Newest(segments, cursor) < sequence
    ensures QueueOk(segments + [Segment(sequence, "")], cursor)
    ensures Rest(segments + [Segment(sequence, "")], cursor) == Rest(segments, cursor)
    ensures Total(segments + [Segment(sequence, "")]) == Total(segments)
    ensures Bounded(segments + [Segment(sequence, "")], bounds)
    ensures Newest(segments + [Segment(sequence, "")], cursor) == sequence
  {
    Push(segments, ReadStart(segments, cursor), Segment(sequence, ""));
  }

  // ---------- the forwarder ----------

  datatype Appended = Written | Full | WriteError

  datatype Collected = Collected | QueueFull | CollectFailed

  // What one call of nextBatch yields.
  datatype Batch = Batch(segment: Segment, end: nat, events: Stream)

  class LogForwarder {
    const codec: Codec
    const limits: Limits
    ghost const bounds: Bounds
    var log: string
    var offset: nat
    var segments: seq<Segment>
    var cursor: Option<Cursor>
    // How many operations have failed, crashes and deadlines among them.
    ghost var faults: nat

    constructor (codec: Codec, limits: Limits, log: string)
      ensures this.codec == codec && this.limits == limits
      ensures bounds == Bounds(limits.queueBytes, limits.segmentBytes)
      ensures this.log == log && offset == 0 && segments == [] && cursor == None && faults == 0
    {
      this.codec, this.limits := codec, limits;
      bounds := Bounds(limits.queueBytes, limits.segmentBytes);
      this.log, offset, segments, cursor, faults := log, 0, [], None, 0;
    }

    ghost predicate Valid()
      reads this
    {
      && RoundTrips(codec)
      && limits.batchRecords > 0
      && QueueOk(segments, cursor)
      && bounds.Above(limits) && Bounded(segments, bounds)
      && offset <= |log| && Complete(log[..offset])
    }

    method Attempt() returns (ok: bool)
      modifies this`faults
      ensures faults == old(faults) + Failures(ok)
    {
      ok := *;
      if !ok {
        faults := faults + 1;
      }
    }

    // An offset that cannot be read counts as none.
    method ReadOffset() returns (start: nat)
      modifies this`faults
      ensures faults >= old(faults)
      ensures start == offset || (start == 0 && faults > old(faults))
    {
      var readable := Attempt();
      start := if readable then offset else 0;
    }

    method AtomicWriteOffset(position: nat) returns (ok: bool)
      modifies this`offset, this`faults
      ensures faults == old(faults) + Failures(ok)
      ensures offset == if ok then position else old(offset)
    {
      ok := Attempt();
      if ok {
        offset := position;
      }
    }
  }

  // The events that a queue still holds, oldest first.
  ghost function Pending(codec: Codec, segments: seq<Segment>, cursor: Option<Cursor>): Stream
    requires QueueOk(segments, cursor)
  {
    Decoded(Rest(segments, cursor), Reader(codec))
  }

  // ---------- appending ----------

  class QueueAppender {
    const f: LogForwarder
    var total: nat
    var next: nat
    var path: Option<nat>
    var size: nat
    var open: bool

    ghost predicate Valid()
      reads this, f
    {
      && QueueOk(f.segments, f.cursor)
      && f.bounds.Above(f.limits) && Bounded(f.segments, f.bounds)
      && total == Total(f.segments)
      && next == Newest(f.segments, f.cursor)
      && (path.Some? ==>
            && f.segments != []
            && Last(f.segments).sequence == path.value
            && |Last(f.segments).data| == size)
      && (open ==> path.Some?)
    }

    constructor (f: LogForwarder)
      requires QueueOk(f.segments, f.cursor) && f.bounds.Above(f.limits) && Bounded(f.segments, f.bounds)
      ensures this.f == f && Valid()
    {
      this.f := f;
      total := Total(f.segments);
      next := Newest(f.segments, f.cursor);
      path, size, open := None, 0, false;
      if f.segments != [] && |Last(f.segments).data| < f.limits.segmentBytes {
        path, size := Some(Last(f.segments).sequence), |Last(f.segments).data|;
      }
    }

    static predicate Used(segments: seq<Segment>, n: nat) {
      exists i :: 0 <= i < |segments| && segments[i].sequence == n
    }

    // The first number after `next` that no segment has.
    static method NextFree(segments: seq<Segment>, next: nat) returns (ok: bool, n: nat)
      ensures ok ==> next < n <= LAST_SEQUENCE && !Used(segments, n)
      ensures (forall s :: s in segments ==> s.sequence <= next) ==>
        if ok then n == next + 1 else next >= LAST_SEQUENCE
    {
      n := next;
      while true
        invariant n >= next
        invariant n > next ==> Used(segments, n)
        invariant n > next ==> Used(segments, next + 1)
        decreases LAST_SEQUENCE - n
      {
        if n >= LAST_SEQUENCE {
          return false, n;
        }
        n := n + 1;
        if !Used(segments, n) {
          return true, n;
        }
      }
    }

    method CloseFile() returns (ok: bool)
      modifies this`open, f`faults
      ensures !open
      ensures f.faults == old(f.faults) + Failures(ok)
    {
      ok := true;
      if open {
        ok := f.Attempt();
      }
      open := false;
    }

    method OpenFile() returns (ok: bool)
      requires Valid() && !open
      modifies this, f`segments, f`faults
      ensures f.faults >= old(f.faults)
      ensures !ok ==> f.faults > old(f.faults) || Exhausted(f.segments, f.cursor)
      ensures QueueOk(f.segments, f.cursor)
      ensures Rest(f.segments, f.cursor) == Rest(old(f.segments), f.cursor)
      ensures Total(f.segments) == Total(old(f.segments)) && total == old(total)
      ensures ok ==> Valid() && open
      ensures ok ==> if old(path).Some? then size == old(size) && f.segments == old(f.segments) else size == 0
      ensures Bounded(f.segments, f.bounds)
    {
      if path.Some? {
        ok := f.Attempt();
        open := ok;
        return;
      }
      NoneAboveNewest(f.segments, f.cursor);
      var free, n := NextFree(f.segments, next);
      if !free {
        return false;
      }
      next := n;
      path := Some(n);
      ok := f.Attempt();
      if !ok {
        return;
      }
      OpenRest(f.segments, f.cursor, n, f.bounds);
      f.segments := f.segments + [Segment(n, "")];
      size, open := 0, true;
    }

    // All or nothing, with the newest segment open.
    method Write(record: string) returns (ok: bool)
      requires Valid() && open && IsRecord(record)
      requires |record| + total <= f.limits.queueBytes
      requires size == 0 || size + |record| <= f.limits.segmentBytes
      modifies this, f`segments, f`faults
      ensures Valid()
      ensures f.faults == old(f.faults) + Failures(ok)
      ensures ok ==> Rest(f.segments, f.cursor) == Rest(old(f.segments), f.cursor) + record
      ensures ok ==> Total(f.segments) == Total(old(f.segments)) + |record|
      ensures !ok ==> f.segments == old(f.segments)
    {
      ok := f.Attempt();
      if ok {
        GrowRest(f.segments, f.cursor, record);
        GrowBounded(f.segments, record, f.bounds);
        f.segments := Grown(f.segments, record);
        size, total := size + |record|, total + |record|;
      }
    }

    // Opens the segment that the record goes to: the newest one unless the
    // record would take it over its limit.
    method Prepare(record: string) returns (ok: bool)
      requires Valid()
      modifies this, f`segments, f`faults
      ensures f.faults >= old(f.faults)
      ensures !ok ==> f.faults > old(f.faults) || Exhausted(f.segments, f.cursor)
      ensures QueueOk(f.segments, f.cursor)
      ensures Rest(f.segments, f.cursor) == Rest(old(f.segments), f.cursor)
      ensures Total(f.segments) == Total(old(f.segments))
      ensures Bounded(f.segments, f.bounds)
      ensures ok ==> Valid() && open && total == old(total) && (size == 0 || size + |record| <= f.limits.segmentBytes)
    {
      if path.Some? && size > 0 && size + |record| > f.limits.segmentBytes {
        ok := CloseFile();
        if !ok {
          return;
        }
        path, size := None, 0;
      }
      ok := true;
      if !open {
        ok := OpenFile();
      }
    }

    // A full queue is refused without a trace. Otherwise the record is at the
    // end of the queue or, after an error, nowhere.
    method Append(record: string) returns (r: Appended)
      requires Valid() && IsRecord(record)
      modifies this, f`segments, f`faults
      ensures QueueOk(f.segments, f.cursor)
      ensures f.faults >= old(f.faults)
      ensures r == WriteError ==> f.faults > old(f.faults) || Exhausted(f.segments, f.cursor)
      ensures r == Full <==> |record| + Total(old(f.segments)) > f.limits.queueBytes
      ensures r == Full ==> f.segments == old(f.segments)
      ensures r == Written ==> Rest(f.segments, f.cursor) == Rest(old(f.segments), f.cursor) + record
      ensures r == Written ==> Total(f.segments) == Total(old(f.segments)) + |record|
      ensures r != Written ==> Rest(f.segments, f.cursor) == Rest(old(f.segments), f.cursor)
      ensures r != Written ==> Total(f.segments) == Total(old(f.segments))
      ensures r != WriteError ==> Valid()
      ensures Bounded(f.segments, f.bounds)
    {
      if |record| > f.limits.queueBytes - total {
        return Full;
      }
      var ready := Prepare(record);
      if !ready {
        return WriteError;
      }
      var written := Write(record);
      return if written then Written else WriteError;
    }
  }
}
