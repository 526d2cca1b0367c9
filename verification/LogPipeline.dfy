// Collecting log lines into the queue and delivering them from it.
module LogPipeline {
  import opened Options
  import opened LogLines
  import opened LogQueue

  // ---------- reading ----------

  // Where the line that starts at `from` ends, with a newline or with the text.
  predicate IsLineEnd(text: string, from: nat, n: nat) {
    && from <= n <= |text|
    && (n < |text| ==> text[n] == '\n')
    && forall k :: from <= k < n ==> text[k] != '\n'
  }

  method IndexNewline(text: string, from: nat) returns (n: nat)
    requires from <= |text|
    ensures IsLineEnd(text, from, n)
  {
    n := from;
    while n < |text| && text[n] != '\n'
      invariant from <= n <= |text|
      invariant forall k :: from <= k < n ==> text[k] != '\n'
    {
      n := n + 1;
    }
  }

  lemma Adjoined(data: string, i: nat, j: nat, k: nat)
    requires i <= j <= k <= |data|
    ensures data[i..j] + data[j..k] == data[i..k]
  {
  }

  lemma LineBehind(text: string, start: nat, position: nat, n: nat)
    requires start <= position <= n < |text| && text[n] == '\n'
    ensures text[start..n + 1] == text[start..position] + (text[position..n] + "\n")
  {
    assert text[n..n + 1] == "\n";
    Adjoined(text, position, n, n + 1);
    Adjoined(text, start, position, n + 1);
  }

  // One line more of a text that is read from `start`.
  lemma ReadOneLine(text: string, start: nat, position: nat, n: nat, decode: string -> Option<Event>)
    requires start <= position && n < |text| && IsLineEnd(text, position, n)
    requires Complete(text[start..position])
    ensures Complete(text[start..n + 1])
    ensures Decoded(text[start..n + 1], decode) ==
      Add(Decoded(text[start..position], decode), decode(text[position..n]))
    ensures EventBytes(text[start..n + 1], decode) ==
      EventBytes(text[start..position], decode) + if decode(text[position..n]).Some? then n + 1 - position else 0
  {
    var line := text[position..n];
    LineBehind(text, start, position, n);
    EventBytesLine(line, decode);
    EventBytesConcat(text[start..position], line + "\n", decode);
    DecodedLine(line, decode);
    DecodedConcat(text[start..position], line + "\n", decode);
  }

  // ---------- collecting ----------

  // A record behind the rest of the queue is one more pending event, if it is
  // not too long to be read.
  lemma QueuedRecord(codec: Codec, e: Event, rest: string, record: string)
    requires RoundTrips(codec) && Complete(rest) && record == codec.encode(e) + "\n"
    ensures IsRecord(record)
    ensures Decoded(rest + record, Reader(codec)) == Add(Decoded(rest, Reader(codec)), Lasting(codec, e))
  {
    ReadBackIff(codec, e);
    DecodedLine(codec.encode(e), Reader(codec));
    DecodedConcat(rest, record, Reader(codec));
  }

  function RecordOf(codec: Codec, e: Event): (record: string)
    requires RoundTrips(codec)
    ensures IsRecord(record) && |record| == |codec.encode(e)| + 1
  {
    ReadBackIff(codec, e);
    codec.encode(e) + "\n"
  }

  lemma PendingAfter(codec: Codec, segments: seq<Segment>, segments': seq<Segment>, cursor: Option<Cursor>, e: Event,
                     written: bool)
    requires RoundTrips(codec) && QueueOk(segments, cursor) && QueueOk(segments', cursor)
    requires Rest(segments', cursor) == Rest(segments, cursor) + if written then RecordOf(codec, e) else ""
    ensures Pending(codec, segments', cursor) ==
      Add(Pending(codec, segments, cursor), if written then Lasting(codec, e) else None)
  {
    RestComplete(segments, cursor);
    if written {
      QueuedRecord(codec, e, Rest(segments, cursor), RecordOf(codec, e));
    } else {
      assert Rest(segments, cursor) + "" == Rest(segments, cursor);
    }
  }

  method AppendEvent(f: LogForwarder, appender: QueueAppender, e: Event) returns (r: Appended)
    requires appender.f == f && appender.Valid() && f.Valid()
    modifies appender, f`segments, f`faults
    ensures f.Valid()
    ensures f.faults >= old(f.faults)
    ensures r == WriteError ==> f.faults > old(f.faults) || Exhausted(f.segments, f.cursor)
    ensures r == Full <==> |f.codec.encode(e)| + 1 + Total(old(f.segments)) > f.limits.queueBytes
    ensures Pending(f.codec, f.segments, f.cursor) ==
      Add(old(Pending(f.codec, f.segments, f.cursor)), if r == Written then Lasting(f.codec, e) else None)
    ensures r == Full ==> f.segments == old(f.segments)
    ensures r != WriteError ==> appender.Valid()
  {
    var record := RecordOf(f.codec, e);
    r := appender.Append(record);
    PendingAfter(f.codec, old(f.segments), f.segments, f.cursor, e, r == Written);
  }

  // What one round of the collecting loop does.
  datatype Round = Skipped | Queued | NoLine | TooLong | NoRoom | Broken

  // The scanner finds a line only if it fits its buffer.
  method ScanLine(log: string, at: nat) returns (r: Round, n: nat)
    requires at <= |log|
    ensures at <= n <= |log| && IsLineEnd(log, at, n)
    ensures r == Queued ==> n < |log|
    ensures r in {Queued, NoLine, TooLong}
    ensures r == TooLong <==> n - at >= TOKEN_BYTES
    ensures r == NoLine ==> '\n' !in log[at..]
  {
    n := IndexNewline(log, at);
    if n == |log| {
      return (if n - at >= TOKEN_BYTES then TooLong else NoLine), n;
    }
    return (if n + 1 - at > TOKEN_BYTES then TooLong else Queued), n;
  }

  // The log between `start` and `at` was collected on top of `before`.
  ghost predicate CollectedTo(f: LogForwarder, start: nat, at: nat, before: Stream)
    reads f
  {
    f.Valid() && IsCollected(f.codec, f.log, start, at, before, Pending(f.codec, f.segments, f.cursor))
  }

  ghost predicate IsCollected(codec: Codec, log: string, start: nat, at: nat, before: Stream, pending: Stream) {
    && start <= at <= |log| && Complete(log[..start]) && Complete(log[start..at])
    && pending == Cat(before, Decoded(log[start..at], Parser(codec)))
  }

  lemma CollectedLine(codec: Codec, log: string, start: nat, at: nat, n: nat, before: Stream, pending: Stream,
                      pending': Stream)
    requires IsCollected(codec, log, start, at, before, pending)
    requires at <= n < |log| && IsLineEnd(log, at, n)
    requires pending' == Add(pending, LastingLine(codec, log[at..n]))
    ensures IsCollected(codec, log, start, n + 1, before, pending')
  {
    ReadOneLine(log, start, at, n, Parser(codec));
  }

  ghost predicate TooLongAt(log: string, at: nat) {
    exists n: nat :: IsLineEnd(log, at, n) && n - at >= TOKEN_BYTES
  }

  // The next event has no room in the queue.
  ghost predicate NoRoomAt(f: LogForwarder, at: nat)
    reads f
  {
    exists n: nat :: IsLineEnd(f.log, at, n) && NoRoomFor(f.codec, f.limits, f.segments, f.codec.parse(f.log[at..n]))
  }

  predicate NoRoomFor(codec: Codec, limits: Limits, segments: seq<Segment>, event: Option<Event>) {
    event.Some? && |codec.encode(event.value)| + 1 + Total(segments) > limits.queueBytes
  }

  // Why collecting stops where nothing fails.
  ghost predicate StopsAt(f: LogForwarder, r: Round, at: nat)
    requires at <= |f.log|
    reads f
  {
    match r
    case NoLine => '\n' !in f.log[at..]
    case TooLong => TooLongAt(f.log, at)
    case NoRoom => NoRoomAt(f, at)
    case Broken => Exhausted(f.segments, f.cursor)
    case _ => true
  }

  // The line at `at`, if there is one that is to be collected.
  method CollectLine(f: LogForwarder, appender: QueueAppender, at: nat) returns (r: Round, n: nat)
    requires appender.f == f && appender.Valid() && f.Valid() && at <= |f.log|
    modifies appender, f`segments, f`faults
    ensures f.Valid()
    ensures f.faults >= old(f.faults)
    ensures f.faults > old(f.faults) || StopsAt(f, r, at)
    ensures IsLineEnd(f.log, at, n)
    ensures r in {Skipped, Queued} ==> n < |f.log|
    ensures r == Skipped ==> f.codec.parse(f.log[at..n]).None?
    ensures r == Queued ==> f.codec.parse(f.log[at..n]).Some?
    ensures r in {Skipped, Queued} ==>
      Pending(f.codec, f.segments, f.cursor) ==
      Add(old(Pending(f.codec, f.segments, f.cursor)), LastingLine(f.codec, f.log[at..n]))
    ensures r != Queued ==> Pending(f.codec, f.segments, f.cursor) == old(Pending(f.codec, f.segments, f.cursor))
    ensures r == NoLine ==> '\n' !in f.log[at..]
    ensures r != Broken ==> appender.Valid()
  {
    r, n := ScanLine(f.log, at);
    if r == Queued {
      var event := f.codec.parse(f.log[at..n]);
      if event.None? {
        return Skipped, n;
      }
      var appended := AppendEvent(f, appender, event.value);
      r := match appended case Written => Queued case Full => NoRoom case WriteError => Broken;
    }
  }

  // One round of the loop: the line is counted and passed.
  method CollectRound(f: LogForwarder, appender: QueueAppender, start: nat, at: nat, ghost before: Stream)
    returns (r: Round, next: nat)
    requires appender.f == f && appender.Valid()
    requires CollectedTo(f, start, at, before)
    modifies appender, f`segments, f`faults
    ensures CollectedTo(f, start, next, before)
    ensures f.faults >= old(f.faults)
    ensures r in {Skipped, Queued} || f.faults > old(f.faults) || StopsAt(f, r, next)
    ensures if r in {Skipped, Queued} then next > at else next == at
    ensures r == NoLine ==> '\n' !in f.log[at..]
    ensures r != Broken ==> appender.Valid()
  {
    ghost var pending := Pending(f.codec, f.segments, f.cursor);
    var n;
    r, n := CollectLine(f, appender, at);
    if r !in {Skipped, Queued} {
      return r, at;
    }
    CollectedLine(f.codec, f.log, start, at, n, before, pending, Pending(f.codec, f.segments, f.cursor));
    return r, n + 1;
  }

  ghost predicate IsStopped(f: LogForwarder, r: Collected, at: nat)
    requires at <= |f.log|
    reads f
  {
    match r
    case Collected => '\n' !in f.log[at..]
    case QueueFull => NoRoomAt(f, at)
    case CollectFailed => TooLongAt(f.log, at) || Exhausted(f.segments, f.cursor)
  }

  // Appends the events of the complete lines from the saved offset on, as far
  // as the queue has room; without that offset it starts over with the log.
  // `position` is how far it got. A crash can hit between any two lines and
  // before the offset is saved; it reads as CollectFailed.
  method Collect(f: LogForwarder) returns (r: Collected, ghost start: nat, ghost position: nat)
    requires f.Valid()
    modifies f`segments, f`offset, f`faults
    ensures f.Valid()
    ensures f.faults >= old(f.faults)
    ensures start != old(f.offset) ==> start == 0 && f.faults > old(f.faults)
    ensures start <= position <= |f.log| && Complete(f.log[start..position])
    ensures f.faults == old(f.faults) ==> f.offset == position && IsStopped(f, r, position)
    ensures Pending(f.codec, f.segments, f.cursor) ==
      Cat(old(Pending(f.codec, f.segments, f.cursor)), Decoded(f.log[start..position], Parser(f.codec)))
    ensures f.offset == position || (f.offset == old(f.offset) && (r == CollectFailed || position == start))
    ensures r == Collected ==> '\n' !in f.log[position..]
  {
    var from := f.ReadOffset();
    start := from;
    var appender := new QueueAppender(f);
    ghost var before := Pending(f.codec, f.segments, f.cursor);
    assert f.log[from..from] == "" && f.log[..0] == "";
    var alive, at;
    alive, r, at := CollectLines(f, appender, from, before);
    position := at;
    if alive {
      r := SaveOffset(f, appender, from, at, before, r);
    }
  }

  // The loop over the lines; it is not alive behind a crash.
  method CollectLines(f: LogForwarder, appender: QueueAppender, start: nat, ghost before: Stream)
    returns (alive: bool, r: Collected, at: nat)
    requires appender.f == f && appender.Valid() && CollectedTo(f, start, start, before)
    modifies appender, f`segments, f`faults
    ensures CollectedTo(f, start, at, before)
    ensures f.faults >= old(f.faults) + Failures(alive)
    ensures f.faults == old(f.faults) ==> IsStopped(f, r, at)
    ensures r == Collected ==> '\n' !in f.log[at..]
    ensures !alive ==> r == CollectFailed
  {
    at, r := start, CollectFailed;
    while true
      invariant appender.f == f && appender.Valid()
      invariant CollectedTo(f, start, at, before)
      invariant f.faults >= old(f.faults)
      decreases |f.log| - at
    {
      alive := f.Attempt();
      if !alive {
        return false, CollectFailed, at;
      }
      var round;
      round, at := CollectRound(f, appender, start, at, before);
      if round !in {Skipped, Queued} {
        r := match round case NoLine => Collected case NoRoom => QueueFull case _ => CollectFailed;
        return true, r, at;
      }
    }
  }

  method SaveOffset(f: LogForwarder, appender: QueueAppender, start: nat, at: nat, ghost before: Stream, r: Collected)
    returns (r': Collected)
    requires appender.f == f && CollectedTo(f, start, at, before)
    modifies appender, f`offset, f`faults
    ensures f.Valid()
    ensures f.faults >= old(f.faults)
    ensures f.faults == old(f.faults) ==> r' == r && f.offset == if at == start then old(f.offset) else at
    ensures f.offset == at || (f.offset == old(f.offset) && (r' == CollectFailed || at == start))
    ensures r' in {r, CollectFailed}
  {
    var closed := appender.CloseFile();
    if !closed {
      return CollectFailed;
    }
    if at != start {
      CompleteAt(f.log, start, at);
      var saved := f.AtomicWriteOffset(at);
      if !saved {
        return CollectFailed;
      }
    }
    return r;
  }

  lemma CompleteAt(text: string, start: nat, at: nat)
    requires start <= at <= |text| && Complete(text[..start]) && Complete(text[start..at])
    ensures Complete(text[..at])
  {
    assert text[..at] == text[..start] + text[start..at];
    CompleteConcat(text[..start], text[start..at]);
  }

  // ---------- delivering ----------

  // One record, read in chunks of the buffer's size: the line without its end
  // and how much was read. A record that is too long yields an empty line.
  method ReadRecord(data: string, start: nat) returns (line: string, consumed: nat, ghost n: nat)
    requires start <= |data|
    ensures IsLineEnd(data, start, n)
    ensures start + consumed == if n < |data| then n + 1 else n
    ensures line == if consumed <= RECORD_BYTES then TrimCR(data[start..n]) else ""
    ensures consumed == 0 <==> start == |data|
    ensures start + consumed <= |data| && |line| <= consumed
  {
    var end := start;
    line, consumed, n := "", 0, start;
    var tooLarge := false;
    while true
      invariant end == start + consumed <= |data|
      invariant forall k :: start <= k < end ==> data[k] != '\n'
      invariant tooLarge <==> consumed > RECORD_BYTES
      invariant line == if tooLarge then "" else data[start..end]
      decreases |data| - end
    {
      var newline := IndexNewline(data, end);
      var chunkEnd := if newline + 1 - end <= READ_BUFFER && newline < |data| then newline + 1
                      else if |data| - end < READ_BUFFER then |data|
                      else end + READ_BUFFER;
      n := newline;
      consumed := consumed + chunkEnd - end;
      if !tooLarge {
        if consumed > RECORD_BYTES {
          line, tooLarge := "", true;
        } else {
          Adjoined(data, start, end, chunkEnd);
          line := line + data[end..chunkEnd];
        }
      }
      if chunkEnd == newline + 1 {
        if !tooLarge {
          line := line[..|line| - 1];
          assert line == data[start..newline];
        }
        line := TrimCR(line);
        return;
      }
      if chunkEnd == |data| {
        line := TrimCR(line);
        return;
      }
      end := chunkEnd;
    }
  }

  // What nextBatch reads from the oldest segment: whole records, all their
  // events, never more of them than allowed. It always gets ahead unless
  // there is nothing left.
  method ReadBatch(data: string, start: nat, batchRecords: nat, codec: Codec) returns (end: nat, events: Stream)
    requires Complete(data) && start <= |data| && batchRecords > 0
    ensures start <= end <= |data| && Complete(data[start..end])
    ensures events == Decoded(data[start..end], Reader(codec))
    ensures start < |data| ==> start < end
    ensures EventBytes(data[start..end], Reader(codec)) <= BATCH_BYTES
    ensures Count(events) <= batchRecords
  {
    end, events := start, Nil;
    var records: nat, bytes: nat := 0, 0;
    while records < batchRecords
      invariant BatchRead(data, start, end, codec, events, bytes)
      invariant Count(events) <= records <= batchRecords
      invariant records > 0 || events.Snoc? ==> start < end
      decreases batchRecords - records
    {
      var more;
      more, end, events, bytes := TakeRecord(data, start, end, codec, events, bytes);
      if !more {
        break;
      }
      records := records + 1;
    }
  }

  // The record behind a batch, with what it says.
  lemma RecordTaken(data: string, start: nat, end: nat, codec: Codec, events: Stream, bytes: nat, n: nat,
                    event: Option<Event>)
    requires Complete(data) && BatchRead(data, start, end, codec, events, bytes)
    requires IsLineEnd(data, end, n) && end < |data| && event == Reader(codec)(data[end..n])
    ensures n < |data| && start <= n + 1 && Complete(data[start..n + 1])
    ensures Decoded(data[start..n + 1], Reader(codec)) == Add(events, event)
    ensures EventBytes(data[start..n + 1], Reader(codec)) == bytes + if event.Some? then n + 1 - end else 0
  {
    RecordIsLine(data, end, n);
    ReadOneLine(data, start, end, n, Reader(codec));
  }

  // One record more, if there is one and its event fits.
  method TakeRecord(data: string, ghost start: nat, end: nat, codec: Codec, events: Stream, bytes: nat)
    returns (more: bool, end': nat, events': Stream, bytes': nat)
    requires Complete(data) && BatchRead(data, start, end, codec, events, bytes)
    ensures BatchRead(data, start, end', codec, events', bytes')
    ensures if more then end' > end && Count(events') <= Count(events) + 1
            else end' == end && events' == events && (events == Nil ==> end == |data|)
  {
    end', events', bytes' := end, events, bytes;
    var line, consumed, n := ReadRecord(data, end);
    if consumed == 0 {
      return false, end, events, bytes;
    }
    var event := if line == "" then None else codec.decode(line);
    RecordTaken(data, start, end, codec, events, bytes, n, event);
    if event.Some? && events.Snoc? && bytes + consumed > BATCH_BYTES {
      return false, end, events, bytes;
    }
    end', more := end + consumed, true;
    if event.Some? {
      events', bytes' := Snoc(events, event.value), bytes + consumed;
    }
  }

  ghost predicate BatchRead(data: string, start: nat, end: nat, codec: Codec, events: Stream, bytes: nat) {
    && start <= end <= |data| && Complete(data[start..end])
    && events == Decoded(data[start..end], Reader(codec))
    && bytes == EventBytes(data[start..end], Reader(codec)) <= BATCH_BYTES
    && (events.Nil? ==> bytes == 0)
  }

  // In a text of complete lines every record ends with a newline.
  lemma RecordIsLine(data: string, from: nat, n: nat)
    requires Complete(data) && IsLineEnd(data, from, n) && from < |data|
    ensures n < |data|
  {
    assert data[|data| - 1] == '\n';
  }

  // ---------- acknowledging ----------

  // What is left to read of the oldest segment, for the drain loop.
  function Unread(segments: seq<Segment>, cursor: Option<Cursor>): int {
    if segments == [] then 0 else |segments[0].data| - ReadStart(segments, cursor)
  }

  // A batch of the oldest segment, as ReadBatch read it.
  ghost predicate IsBatch(b: Batch, codec: Codec, segments: seq<Segment>, cursor: Option<Cursor>) {
    && QueueOk(segments, cursor)
    && segments != [] && b.segment == segments[0]
    && ReadStart(segments, cursor) <= b.end <= |segments[0].data|
    && Complete(segments[0].data[ReadStart(segments, cursor)..b.end])
    && b.events == Decoded(segments[0].data[ReadStart(segments, cursor)..b.end], Reader(codec))
    && (b.end == ReadStart(segments, cursor) ==> b.end == |segments[0].data|)
  }

  lemma TextSplits(segments: seq<Segment>, start: nat, end: nat)
    requires segments != [] && start <= end <= |segments[0].data|
    ensures TextFrom(segments, start) == segments[0].data[start..end] + TextFrom(segments, end)
  {
    var data := segments[0].data;
    TextFromOldest(segments, start);
    TextFromOldest(segments, end);
    Adjoined(data, start, end, |data|);
    Regroup(data[start..end], data[end..], AllText(segments[1..]));
  }

  // Moving the cursor over a batch takes its events off the queue.
  lemma CursorMoves(b: Batch, codec: Codec, segments: seq<Segment>, cursor: Option<Cursor>)
    requires IsBatch(b, codec, segments, cursor)
    ensures QueueOk(segments, Some(Cursor(b.segment.sequence, b.end)))
    ensures Pending(codec, segments, cursor) ==
      Cat(b.events, Pending(codec, segments, Some(Cursor(b.segment.sequence, b.end))))
  {
    var start, data := ReadStart(segments, cursor), segments[0].data;
    TextSplits(segments, start, b.end);
    CompleteAt(data, start, b.end);
    DecodedConcat(data[start..b.end], TextFrom(segments, b.end), Reader(codec));
  }

  // A segment that was read to its end can go.
  lemma OldestGoes(segments: seq<Segment>, codec: Codec)
    requires segments != []
    requires QueueOk(segments, Some(Cursor(segments[0].sequence, |segments[0].data|)))
    ensures QueueOk(segments[1..], Some(Cursor(segments[0].sequence, |segments[0].data|)))
    ensures Pending(codec, segments[1..], Some(Cursor(segments[0].sequence, |segments[0].data|))) ==
      Pending(codec, segments, Some(Cursor(segments[0].sequence, |segments[0].data|)))
    ensures Total(segments[1..]) <= Total(segments)
  {
    TextFromOldest(segments, |segments[0].data|);
    assert segments[0].data[|segments[0].data|..] + AllText(segments[1..]) == AllText(segments[1..]);
    AllTextIsFromZero(segments[1..]);
    if |segments| >= 2 {
      SortedTail(segments);
    }
    TotalOldest(segments);
  }

  lemma {:induction false} TotalOldest(segments: seq<Segment>)
    requires segments != []
    ensures Total(segments) == |segments[0].data| + Total(segments[1..])
  {
    if |segments| >= 2 {
      TotalOldest(Front(segments));
      assert Front(segments)[1..] == Front(segments[1..]);
    } else {
      assert segments[1..] == [];
      assert Total(Front(segments)) == 0;
    }
  }

  // Every operation can fail after or before its effect on the disk; `moved`
  // tells whether the cursor is behind the batch.
  method AckBatch(f: LogForwarder, b: Batch) returns (ok: bool, ghost moved: bool)
    requires f.Valid() && IsBatch(b, f.codec, f.segments, f.cursor)
    modifies f`cursor, f`segments, f`faults
    ensures f.Valid()
    ensures f.faults == old(f.faults) + Failures(ok)
    ensures moved ==> old(Pending(f.codec, f.segments, f.cursor)) == Cat(b.events, Pending(f.codec, f.segments, f.cursor))
    ensures !moved ==> f.segments == old(f.segments) && f.cursor == old(f.cursor)
    ensures ok ==> moved
    ensures ok && |f.segments| >= |old(f.segments)| ==>
      f.segments == old(f.segments) && Unread(f.segments, f.cursor) < old(Unread(f.segments, f.cursor))
  {
    moved := false;
    ok := f.Attempt();
    if !ok {
      return;
    }
    CursorMoves(b, f.codec, f.segments, f.cursor);
    f.cursor, moved := Some(Cursor(b.segment.sequence, b.end)), true;
    ok := f.Attempt();
    if !ok || |f.segments[0].data| != b.end {
      return;
    }
    ok := f.Attempt();
    if !ok {
      return;
    }
    OldestGoes(f.segments, f.codec);
    f.segments := f.segments[1..];
    ok := f.Attempt();
  }

  // What nextBatch answers. The error for a batch without read progress is not
  // among the answers: ReadBatch always gets ahead.
  datatype Next = Empty | Fault | CursorAhead | OffsetOutside | Read(batch: Batch)

  method NextBatch(f: LogForwarder) returns (r: Next)
    requires AllComplete(f.segments) && f.limits.batchRecords > 0
    modifies f`faults
    ensures f.faults == old(f.faults) + if r == Fault then 1 else 0
    ensures QueueOk(f.segments, f.cursor) ==> r !in {CursorAhead, OffsetOutside}
    ensures f.segments == [] ==> r in {Empty, Fault}
    ensures r == Empty ==> f.segments == []
    ensures r == CursorAhead ==> f.cursor.Some? && f.cursor.value.segment > f.segments[0].sequence
    ensures r == OffsetOutside ==> ReadStart(f.segments, f.cursor) > |f.segments[0].data|
    ensures r.Read? && QueueOk(f.segments, f.cursor) ==> IsBatch(r.batch, f.codec, f.segments, f.cursor)
  {
    var readable := f.Attempt();
    if !readable {
      return Fault;
    }
    if f.segments == [] {
      return Empty;
    }
    if f.cursor.Some? && f.cursor.value.segment > f.segments[0].sequence {
      return CursorAhead;
    }
    var start := ReadStart(f.segments, f.cursor);
    if start > |f.segments[0].data| {
      return OffsetOutside;
    }
    var end, events := ReadBatch(f.segments[0].data, start, f.limits.batchRecords, f.codec);
    return Read(Batch(f.segments[0], end, events));
  }

  // One batch is uploaded and acknowledged. `sent` is what the server took,
  // with or without saying so, and `passed` what the cursor moved over.
  method FlushBatch(f: LogForwarder) returns (progressed: bool, ok: bool, ghost sent: Stream, ghost passed: Stream)
    requires f.Valid()
    modifies f`cursor, f`segments, f`faults
    ensures f.Valid()
    ensures f.faults == old(f.faults) + Failures(ok)
    ensures old(Pending(f.codec, f.segments, f.cursor)) == Cat(passed, Pending(f.codec, f.segments, f.cursor))
    ensures passed == sent || passed == Nil
    ensures progressed ==> ok
    ensures ok ==> passed == sent
    ensures ok && !progressed ==> f.segments == [] && f.segments == old(f.segments)
    ensures progressed && |f.segments| >= |old(f.segments)| ==>
      f.segments == old(f.segments) && Unread(f.segments, f.cursor) < old(Unread(f.segments, f.cursor))
  {
    sent, passed := Nil, Nil;
    CatNil(Pending(f.codec, f.segments, f.cursor));
    var next := NextBatch(f);
    if next == Empty {
      return false, true, sent, passed;
    }
    if !next.Read? {
      return false, false, sent, passed;
    }
    if next.batch.events != Nil {
      var replied := f.Attempt();
      var taken: bool := *;
      sent := if replied || taken then next.batch.events else Nil;
      if !replied {
        return false, false, sent, passed;
      }
    }
    ghost var moved;
    progressed, moved := AckBatch(f, next.batch);
    ok := progressed;
    if moved {
      passed := next.batch.events;
    }
  }

  // The drain loop ends on its own, also without a deadline.
  method Drain(f: LogForwarder) returns (ok: bool, ghost sent: Stream, ghost passed: Stream)
    requires f.Valid()
    modifies f`cursor, f`segments, f`faults
    ensures f.Valid()
    // Where nothing fails and time suffices, all that was pending is delivered.
    ensures f.faults >= old(f.faults)
    ensures f.faults == old(f.faults) ==> ok && f.segments == [] && sent == old(Pending(f.codec, f.segments, f.cursor))
    ensures old(Pending(f.codec, f.segments, f.cursor)) == Cat(passed, Pending(f.codec, f.segments, f.cursor))
    ensures InOrder(passed, sent)
    ensures ok ==> passed == sent
  {
    sent, passed := Nil, Nil;
    CatNil(Pending(f.codec, f.segments, f.cursor));
    ghost var before := Pending(f.codec, f.segments, f.cursor);
    ok := true;
    while true
      invariant f.Valid() && ok && f.faults >= old(f.faults)
      invariant before == Cat(passed, Pending(f.codec, f.segments, f.cursor)) && sent == passed
      decreases |f.segments|, Unread(f.segments, f.cursor)
    {
      ghost var sent', passed';
      var progressed;
      progressed, ok, sent', passed' := FlushBatch(f);
      CatAssociative(passed, passed', Pending(f.codec, f.segments, f.cursor));
      InOrderReflexive(passed);
      InOrderReflexive(passed');
      InOrderCat(passed, sent, passed', sent');
      sent, passed := Cat(sent, sent'), Cat(passed, passed');
      if !progressed {
        CatNil(passed);
        return;
      }
      var timely := f.Attempt();
      if !timely {
        return;
      }
    }
  }

  // ---------- whole runs ----------

  // Every event before the saved offset was delivered or is still pending, in
  // order. Without a lapse each of them is there exactly once.
  ghost predicate Delivers(f: LogForwarder, acked: Stream, delivered: Stream, lapses: nat)
    reads f
  {
    && f.Valid()
    && InOrder(Decoded(f.log[..f.offset], Parser(f.codec)), Cat(acked, Pending(f.codec, f.segments, f.cursor)))
    && InOrder(acked, delivered)
    && (lapses == 0 ==> acked == delivered)
    && (lapses == 0 ==>
          Decoded(f.log[..f.offset], Parser(f.codec)) == Cat(acked, Pending(f.codec, f.segments, f.cursor)))
  }

  // The bookkeeping of a collection that started over.
  lemma CollectsAgain(parse: string -> Option<Event>, log: string, at: nat, position: nat, offset: nat,
                      acked: Stream, pending: Stream, pending': Stream)
    requires at <= |log| && position <= |log| && offset in {at, position}
    requires pending' == Cat(pending, Decoded(log[..position], parse))
    requires InOrder(Decoded(log[..at], parse), Cat(acked, pending))
    ensures InOrder(Decoded(log[..offset], parse), Cat(acked, pending'))
  {
    var more := Decoded(log[..position], parse);
    CatAssociative(acked, pending, more);
    InOrderReflexive(more);
    CatNil(more);
    InOrderCat(Nil, Cat(acked, pending), more, more);
    InOrderCat(Decoded(log[..at], parse), Cat(acked, pending), Nil, more);
  }

  // The bookkeeping of a collection that got from `start` to `position`, with
  // the offset saved as `at` before and as `offset` after it.
  lemma CollectDelivers(parse: string -> Option<Event>, log: string, at: nat, start: nat, position: nat, offset: nat,
                        acked: Stream, pending: Stream, pending': Stream)
    requires at <= |log| && start <= position <= |log| && Complete(log[..at]) && start in {0, at} && offset in {at, position}
    requires pending' == Cat(pending, Decoded(log[start..position], parse))
    requires InOrder(Decoded(log[..at], parse), Cat(acked, pending))
    ensures InOrder(Decoded(log[..offset], parse), Cat(acked, pending'))
    ensures start == at && offset == position && Decoded(log[..at], parse) == Cat(acked, pending) ==>
      Decoded(log[..offset], parse) == Cat(acked, pending')
  {
    if start != at {
      assert log[0..position] == log[..position];
      CollectsAgain(parse, log, at, position, offset, acked, pending, pending');
      return;
    }
    var more := Decoded(log[at..position], parse);
    assert log[..position] == log[..at] + log[at..position];
    DecodedConcat(log[..at], log[at..position], parse);
    CatAssociative(acked, pending, more);
    InOrderReflexive(more);
    InOrderCat(Decoded(log[..at], parse), Cat(acked, pending), more, more);
    InOrderCat(Decoded(log[..at], parse), Cat(acked, pending), Nil, more);
  }

  // A collection lapses when it stops between queueing and saving its offset,
  // or cannot read it.
  method CollectStep(f: LogForwarder, ghost acked: Stream, ghost delivered: Stream, ghost lapses: nat)
    returns (ghost lapses': nat)
    requires Delivers(f, acked, delivered, lapses)
    modifies f`segments, f`offset, f`faults
    ensures Delivers(f, acked, delivered, lapses')
    ensures lapses' >= lapses && f.faults >= old(f.faults)
    ensures f.faults == old(f.faults) ==> lapses' == lapses
  {
    ghost var at, pending := f.offset, Pending(f.codec, f.segments, f.cursor);
    var r;
    ghost var start, position;
    r, start, position := Collect(f);
    CollectDelivers(Parser(f.codec), f.log, at, start, position, f.offset, acked, pending,
                    Pending(f.codec, f.segments, f.cursor));
    lapses' := if start == at && f.offset == position then lapses else lapses + 1;
  }

  // A delivery lapses when the server took a batch that is not acknowledged.
  method DrainStep(f: LogForwarder, ghost acked: Stream, ghost delivered: Stream, ghost lapses: nat)
    returns (ghost acked': Stream, ghost delivered': Stream, ghost lapses': nat)
    requires Delivers(f, acked, delivered, lapses)
    modifies f`segments, f`cursor, f`faults
    ensures Delivers(f, acked', delivered', lapses')
    ensures lapses' >= lapses && f.faults >= old(f.faults)
    ensures f.faults == old(f.faults) ==> lapses' == lapses && f.segments == []
  {
    var ok;
    ghost var sent, passed;
    ok, sent, passed := Drain(f);
    CatAssociative(acked, passed, Pending(f.codec, f.segments, f.cursor));
    InOrderCat(acked, delivered, passed, sent);
    acked', delivered' := Cat(acked, passed), Cat(delivered, sent);
    lapses' := if passed == sent then lapses else lapses + 1;
  }

  // Any number of rounds over a growing log, with crashes and failures
  // anywhere: what was logged before the saved offset is in what the server
  // took or in what it will still get, in order. Without a lapse it is there
  // exactly once.
  method Run(codec: Codec, limits: Limits, rounds: nat)
    returns (f: LogForwarder, ghost delivered: Stream, ghost lapses: nat)
    requires RoundTrips(codec) && limits.batchRecords > 0
    ensures fresh(f) && f.Valid() && f.codec == codec
    ensures InOrder(Decoded(f.log[..f.offset], Parser(codec)), Cat(delivered, Pending(codec, f.segments, f.cursor)))
    ensures lapses == 0 ==>
      Decoded(f.log[..f.offset], Parser(codec)) == Cat(delivered, Pending(codec, f.segments, f.cursor))
    ensures f.faults == 0 ==> lapses == 0 && delivered == Decoded(f.log[..f.offset], Parser(codec))
    ensures Total(f.segments) <= limits.queueBytes
  {
    f := new LogForwarder(codec, limits, "");
    delivered, lapses := Nil, 0;
    ghost var acked := Nil;
    for i := 0 to rounds
      invariant fresh(f) && f.codec == codec && f.limits == limits && f.bounds.queue == limits.queueBytes
      invariant Delivers(f, acked, delivered, lapses)
      invariant f.faults == 0 ==> lapses == 0 && f.segments == []
    {
      var more: string := *;
      Grow(f, more);
      lapses := CollectStep(f, acked, delivered, lapses);
      acked, delivered, lapses := DrainStep(f, acked, delivered, lapses);
    }
    CatNil(delivered);
    InOrderReflexive(Pending(f.codec, f.segments, f.cursor));
    InOrderCat(acked, delivered, Pending(f.codec, f.segments, f.cursor), Pending(f.codec, f.segments, f.cursor));
    InOrderTransitive(Decoded(f.log[..f.offset], Parser(codec)), Cat(acked, Pending(f.codec, f.segments, f.cursor)),
                      Cat(delivered, Pending(f.codec, f.segments, f.cursor)));
  }

  // The web server appends to its log.
  method Grow(f: LogForwarder, more: string)
    requires f.Valid()
    modifies f`log
    ensures f.Valid() && f.log == old(f.log) + more
    ensures f.log[..f.offset] == old(f.log)[..f.offset]
  {
    f.log := f.log + more;
    assert f.log[..f.offset] == old(f.log)[..f.offset];
  }
}
