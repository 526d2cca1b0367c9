// Newline-terminated text as the access log and the on-disk queue hold it, and
// the events that can be read from it.
module LogLines {
  import opened Options

  datatype Event = Event(id: string, payload: string)

  const RECORD_BYTES: nat := 2097152

  // Whether a text consists of complete lines.
  predicate Complete(text: string) {
    text == "" || text[|text| - 1] == '\n'
  }

  // Events in the order in which they happened, the newest one outermost.
  datatype Stream = Nil | Snoc(front: Stream, last: Event)

  function Cat(a: Stream, b: Stream): Stream {
    match b
    case Nil => a
    case Snoc(front, last) => Snoc(Cat(a, front), last)
  }

  function Add(a: Stream, e: Option<Event>): Stream {
    if e.Some? then Snoc(a, e.value) else a
  }

  lemma {:induction false} CatAssociative(a: Stream, b: Stream, c: Stream)
    ensures Cat(Cat(a, b), c) == Cat(a, Cat(b, c))
  {
    if c.Snoc? {
      CatAssociative(a, b, c.front);
    }
  }

  lemma {:induction false} CatNil(b: Stream)
    ensures Cat(Nil, b) == b
  {
    if b.Snoc? {
      CatNil(b.front);
    }
  }

  // What follows the last newline of a text.
  function LastLine(text: string): string {
    if Complete(text) then "" else LastLine(text[..|text| - 1]) + [text[|text| - 1]]
  }

  // The events of the complete lines of a text, in order. Lines that do not
  // decode are skipped.
  function Decoded(text: string, decode: string -> Option<Event>): Stream {
    if text == "" then Nil
    else
      var front := text[..|text| - 1];
      if text[|text| - 1] == '\n' then Add(Decoded(front, decode), decode(LastLine(front)))
      else Decoded(front, decode)
  }

  lemma CompleteConcat(a: string, b: string)
    requires Complete(a) && Complete(b)
    ensures Complete(a + b)
  {
  }

  lemma {:induction false} LastLineConcat(a: string, b: string)
    requires Complete(a)
    ensures LastLine(a + b) == LastLine(b)
  {
    if b == "" {
      assert a + b == a;
    } else {
      assert (a + b)[..|a + b| - 1] == a + b[..|b| - 1];
      LastLineConcat(a, b[..|b| - 1]);
    }
  }

  // Reading can be interrupted after every complete line.
  lemma {:induction false} DecodedConcat(a: string, b: string, decode: string -> Option<Event>)
    requires Complete(a)
    ensures Decoded(a + b, decode) == Cat(Decoded(a, decode), Decoded(b, decode))
  {
    if b == "" {
      assert a + b == a;
    } else {
      var front := b[..|b| - 1];
      assert (a + b)[..|a + b| - 1] == a + front;
      DecodedConcat(a, front, decode);
      LastLineConcat(a, front);
    }
  }

  lemma {:induction false} DecodedUnfinished(line: string, decode: string -> Option<Event>)
    requires '\n' !in line
    ensures Decoded(line, decode) == Nil && LastLine(line) == line
  {
    if line != "" {
      DecodedUnfinished(line[..|line| - 1], decode);
    }
  }

  // One line, read on its own.
  lemma DecodedLine(line: string, decode: string -> Option<Event>)
    requires '\n' !in line
    ensures Decoded(line + "\n", decode) == Add(Nil, decode(line))
    ensures Complete(line + "\n")
  {
    DecodedUnfinished(line, decode);
    assert (line + "\n")[..|line|] == line;
  }

  // How many bytes the lines take that decode to an event.
  function EventBytes(text: string, decode: string -> Option<Event>): nat {
    if text == "" then 0
    else
      var front := text[..|text| - 1];
      var line := LastLine(front);
      EventBytes(front, decode) + if text[|text| - 1] == '\n' && decode(line).Some? then |line| + 1 else 0
  }

  lemma {:induction false} EventBytesConcat(a: string, b: string, decode: string -> Option<Event>)
    requires Complete(a)
    ensures EventBytes(a + b, decode) == EventBytes(a, decode) + EventBytes(b, decode)
  {
    if b == "" {
      assert a + b == a;
    } else {
      var front := b[..|b| - 1];
      assert (a + b)[..|a + b| - 1] == a + front;
      EventBytesConcat(a, front, decode);
      LastLineConcat(a, front);
    }
  }

  lemma {:induction false} EventBytesUnfinished(line: string, decode: string -> Option<Event>)
    requires '\n' !in line
    ensures EventBytes(line, decode) == 0
  {
    if line != "" {
      EventBytesUnfinished(line[..|line| - 1], decode);
    }
  }

  lemma EventBytesLine(line: string, decode: string -> Option<Event>)
    requires '\n' !in line
    ensures EventBytes(line + "\n", decode) == if decode(line).Some? then |line| + 1 else 0
  {
    DecodedUnfinished(line, decode);
    EventBytesUnfinished(line, decode);
    assert (line + "\n")[..|line|] == line;
  }

  function Count(s: Stream): nat {
    if s.Nil? then 0 else Count(s.front) + 1
  }

  // How log lines become queue records and back.
  datatype Codec = Codec(parse: string -> Option<Event>, encode: Event -> string, decode: string -> Option<Event>)

  function TrimCR(line: string): string {
    if line != "" && line[|line| - 1] == '\r' then line[..|line| - 1] else line
  }

  // What the reader of the queue makes of the text before a newline: it skips
  // records that are too long or empty.
  function ReadBack(c: Codec, line: string): Option<Event> {
    if |line| + 1 > RECORD_BYTES || TrimCR(line) == "" then None else c.decode(TrimCR(line))
  }

  function Reader(c: Codec): string -> Option<Event> {
    line => ReadBack(c, line)
  }

  // Encoding yields one line of text that decodes to the same event.
  ghost predicate RoundTrips(c: Codec) {
    forall e :: var line := c.encode(e);
      line != "" && '\n' !in line && line[|line| - 1] != '\r' && c.decode(line) == Some(e)
  }

  // The reader accepts the record of the event.
  predicate Fits(c: Codec, e: Event) {
    |c.encode(e)| + 1 <= RECORD_BYTES
  }

  function Lasting(c: Codec, e: Event): Option<Event> {
    if Fits(c, e) then Some(e) else None
  }

  // The event of a log line, if its record fits.
  function LastingLine(c: Codec, line: string): Option<Event> {
    var e := c.parse(line);
    if e.Some? then Lasting(c, e.value) else None
  }

  function Parser(c: Codec): string -> Option<Event> {
    line => LastingLine(c, line)
  }

  // Exactly the records up to the limit are read back; longer ones are lost.
  lemma ReadBackIff(c: Codec, e: Event)
    requires RoundTrips(c)
    ensures Decoded(c.encode(e) + "\n", Reader(c)) == Add(Nil, Lasting(c, e))
  {
    DecodedLine(c.encode(e), Reader(c));
  }

  // Nothing is lost of a log whose events all fit.
  lemma {:induction false} AllLast(c: Codec, text: string)
    requires forall line :: c.parse(line).Some? ==> Fits(c, c.parse(line).value)
    ensures Decoded(text, Parser(c)) == Decoded(text, c.parse)
  {
    if text != "" {
      AllLast(c, text[..|text| - 1]);
    }
  }

  // ---------- order with repetitions ----------

  // All of `some` appears in `all`, in the same order.
  predicate InOrder(some: Stream, all: Stream) {
    || some.Nil?
    || (all.Snoc? && some.last == all.last && InOrder(some.front, all.front))
    || (all.Snoc? && InOrder(some, all.front))
  }

  lemma {:induction false} InOrderReflexive(a: Stream)
    ensures InOrder(a, a)
  {
    if a.Snoc? {
      InOrderReflexive(a.front);
    }
  }

  lemma {:induction false} InOrderCat(a: Stream, a': Stream, b: Stream, b': Stream)
    requires InOrder(a, a') && InOrder(b, b')
    ensures InOrder(Cat(a, b), Cat(a', b'))
    decreases b'
  {
    if b'.Snoc? {
      if b.Snoc? && b.last == b'.last && InOrder(b.front, b'.front) {
        InOrderCat(a, a', b.front, b'.front);
      } else {
        InOrderCat(a, a', b, b'.front);
      }
    }
  }

  lemma {:induction false} InOrderTransitive(a: Stream, b: Stream, c: Stream)
    requires InOrder(a, b) && InOrder(b, c)
    ensures InOrder(a, c)
    decreases c
  {
    if a.Snoc? && b.Snoc? {
      if b.last == c.last && InOrder(b.front, c.front) {
        if a.last == b.last && InOrder(a.front, b.front) {
          InOrderTransitive(a.front, b.front, c.front);
        } else {
          InOrderTransitive(a, b.front, c.front);
        }
      } else {
        InOrderTransitive(a, b, c.front);
      }
    }
  }
}
