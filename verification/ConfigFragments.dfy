// Cutting a configuration into a base and fragments between marker lines.
module ConfigFragments {
  import opened Options
  import opened Strings

  // ---------- searching ----------

  predicate Occurs(pattern: string, s: string, k: nat) {
    k + |pattern| <= |s| && s[k..k + |pattern|] == pattern
  }

  // Where a pattern first occurs.
  function Index(s: string, pattern: string): (r: Option<nat>)
    ensures r.Some? ==> r.value + |pattern| <= |s|
  {
    IndexFrom(s, pattern, 0)
  }

  function IndexFrom(s: string, pattern: string, from: nat): (r: Option<nat>)
    requires from <= |s|
    ensures r.Some? ==> r.value + |pattern| <= |s|
    decreases |s| - from
  {
    if Occurs(pattern, s, from) then Some(from)
    else if from == |s| then None
    else IndexFrom(s, pattern, from + 1)
  }

  // It is where the pattern occurs and not before, if it occurs at all.
  lemma {:induction false} IndexIsFirst(s: string, pattern: string, from: nat)
    requires from <= |s|
    ensures var r := IndexFrom(s, pattern, from);
      match r
      case None => forall k :: from <= k <= |s| ==> !Occurs(pattern, s, k)
      case Some(k) => from <= k && Occurs(pattern, s, k) && forall j :: from <= j < k ==> !Occurs(pattern, s, j)
    decreases |s| - from
  {
    if !Occurs(pattern, s, from) && from < |s| {
      IndexIsFirst(s, pattern, from + 1);
    }
  }

  // The first character of a marker does not come again in it.
  predicate IsMarker(p: string) {
    p != "" && forall j :: 0 < j < |p| ==> p[j] != p[0]
  }

  predicate IsFree(s: string, p: string) {
    forall k :: 0 <= k <= |s| ==> !Occurs(p, s, k)
  }

  // What starts with the marker does not occur earlier, not even in part.
  lemma NotBefore(s: string, p: string, pattern: string, rest: string, k: nat)
    requires IsMarker(p) && IsFree(s, p) && p <= pattern && k < |s|
    ensures !Occurs(pattern, s + pattern + rest, k)
  {
    var whole := s + pattern + rest;
    if k + |p| <= |s| {
      assert whole[k..k + |p|] == s[k..k + |p|];
      assert !Occurs(p, s, k);
      OccursInPart(pattern, whole, k, p);
    } else if k + |pattern| <= |whole| {
      assert whole[k..k + |pattern|][|s| - k] == whole[|s|] == pattern[0] == p[0];
      assert pattern[|s| - k] == p[|s| - k];
    }
  }

  // What occurs, its beginning occurs too.
  lemma OccursInPart(pattern: string, s: string, k: nat, p: string)
    requires p <= pattern
    ensures Occurs(pattern, s, k) ==> Occurs(p, s, k)
  {
    if Occurs(pattern, s, k) {
      assert s[k..k + |p|] == s[k..k + |pattern|][..|p|];
    }
  }

  lemma FoundAfter(s: string, p: string, pattern: string, rest: string)
    requires IsMarker(p) && IsFree(s, p) && p <= pattern
    ensures Index(s + pattern + rest, pattern) == Some(|s|)
  {
    var whole := s + pattern + rest;
    assert whole[|s|..|s| + |pattern|] == pattern;
    assert Occurs(pattern, whole, |s|);
    IndexIsFirst(whole, pattern, 0);
    forall k: nat | k < |s|
      ensures !Occurs(pattern, whole, k)
    {
      NotBefore(s, p, pattern, rest, k);
    }
  }

  lemma NotFound(s: string, p: string)
    requires IsFree(s, p)
    ensures Index(s, p) == None
  {
    IndexIsFirst(s, p, 0);
  }

  // ---------- cutting ----------

  // What a marker line announces.
  datatype Header = Header(id: string, end: string)

  // How marker lines start, and how they are read.
  datatype Syntax = Syntax(prefix: string, header: string -> Option<Header>)

  // Pieces of the base in turn with fragments.
  datatype Cut = Tail(base: string) | Piece(base: string, id: string, text: string, rest: Cut)

  function Join(c: Cut): string {
    match c
    case Tail(base) => base
    case Piece(base, _, text, rest) => base + text + Join(rest)
  }

  function BaseOf(c: Cut): string {
    match c
    case Tail(base) => base
    case Piece(base, _, _, rest) => base + BaseOf(rest)
  }

  datatype Fragment = Fragment(id: string, text: string)

  function FragmentsOf(c: Cut): seq<Fragment> {
    match c
    case Tail(_) => []
    case Piece(_, id, text, rest) => [Fragment(id, text)] + FragmentsOf(rest)
  }

  datatype Step = Done | Broken | Found(start: nat, id: string, end: nat)

  // What the first line of a block says, and where the next line starts.
  function ReadLine(s: string, x: Syntax): (r: Option<(Header, nat)>)
    ensures r.Some? ==> 0 < r.value.1 <= |s|
  {
    var lineEnd := Index(s, "\n");
    if lineEnd.None? then None
    else
      var header := x.header(TrimSpace(s[..lineEnd.value]));
      if header.None? then None else Some((header.value, lineEnd.value + 1))
  }

  // How far the lines of a block reach that end with its end marker.
  function BodyEnd(s: string, end: string): (r: Option<nat>)
    ensures r.Some? ==> r.value <= |s|
  {
    var k := Index(s, end);
    if k.None? then None
    else
      var after := k.value + |end|;
      Some(if after < |s| && s[after] == '\n' then after + 1 else after)
  }

  // The first fragment of a text.
  function NextFragment(s: string, x: Syntax): (r: Step)
    ensures r.Found? ==> r.start < r.end <= |s|
  {
    var start := Index(s, x.prefix);
    if start.None? then Done
    else
      var header := ReadLine(s[start.value..], x);
      if header.None? then Broken
      else
        var body := start.value + header.value.1;
        var end := BodyEnd(s[body..], header.value.0.end);
        if end.None? then Broken else Found(start.value, header.value.0.id, body + end.value)
  }

  function Parse(s: string, x: Syntax): Option<Cut>
    decreases |s|
  {
    match NextFragment(s, x)
    case Done => Some(Tail(s))
    case Broken => None
    case Found(start, id, end) =>
      var rest := Parse(s[end..], x);
      if rest.None? then None else Some(Piece(s[..start], id, s[start..end], rest.value))
  }

  lemma CutBack(s: string, i: nat, j: nat)
    requires i <= j <= |s|
    ensures s[..i] + s[i..j] + s[j..] == s
  {
  }

  // Whatever is accepted is cut without adding, losing or moving anything.
  lemma {:induction false} ParseJoins(s: string, x: Syntax)
    requires Parse(s, x).Some?
    ensures Join(Parse(s, x).value) == s
    decreases |s|
  {
    match NextFragment(s, x)
    case Done =>
    case Found(start, id, end) =>
      ParseJoins(s[end..], x);
      CutBack(s, start, end);
  }

  // ---------- printing ----------

  // What is printed: base text, then blocks between marker lines.
  datatype Layout = Last(base: string) | Block(base: string, line: string, header: Header, body: string, rest: Layout)

  function BlockText(line: string, body: string, end: string): string {
    line + "\n" + body + end + "\n"
  }

  function Print(l: Layout): string {
    match l
    case Last(base) => base
    case Block(base, line, header, body, rest) => base + BlockText(line, body, header.end) + Print(rest)
  }

  function CutOf(l: Layout): Cut {
    match l
    case Last(base) => Tail(base)
    case Block(base, line, header, body, rest) => Piece(base, header.id, BlockText(line, body, header.end), CutOf(rest))
  }

  // Base and bodies are free of the marker; the lines are read as meant.
  predicate IsLayout(l: Layout, x: Syntax) {
    match l
    case Last(base) => IsFree(base, x.prefix)
    case Block(base, line, header, body, rest) =>
      && IsFree(base, x.prefix) && IsFree(body, x.prefix) && IsLayout(rest, x)
      && x.prefix <= line && '\n' !in line && TrimSpace(line) == line
      && x.prefix <= header.end && x.header(line) == Some(header)
  }

  lemma LineIsRead(line: string, header: Header, after: string, x: Syntax)
    requires '\n' !in line && TrimSpace(line) == line && x.header(line) == Some(header)
    ensures ReadLine(line + "\n" + after, x) == Some((header, |line| + 1))
  {
    assert IsFree(line, "\n") by {
      forall k | 0 <= k <= |line|
        ensures !Occurs("\n", line, k)
      {
        assert k < |line| ==> line[k..k + 1][0] == line[k];
      }
    }
    FoundAfter(line, "\n", "\n", after);
    assert (line + "\n" + after)[..|line|] == line;
  }

  lemma BodyIsRead(body: string, end: string, after: string, p: string)
    requires IsMarker(p) && IsFree(body, p) && p <= end
    ensures BodyEnd(body + end + "\n" + after, end) == Some(|body| + |end| + 1)
  {
    assert body + end + "\n" + after == body + end + ("\n" + after);
    FoundAfter(body, p, end, "\n" + after);
  }

  lemma MarkerIsFirst(base: string, line: string, after: string, p: string)
    requires IsMarker(p) && IsFree(base, p) && p <= line
    ensures Index(base + (line + after), p) == Some(|base|)
  {
    assert base + (line + after) == base + p + (line[|p|..] + after);
    FoundAfter(base, p, p, line[|p|..] + after);
  }

  lemma BlockParts(s: string, base: string, fromLine: string, fromBody: string, line: string)
    requires s == base + fromLine && fromLine == line + "\n" + fromBody
    ensures s == base + (line + ("\n" + fromBody))
    ensures |base| + (|line| + 1) <= |s| && s[|base|..] == fromLine && s[|base| + (|line| + 1)..] == fromBody
  {
    assert fromLine == line + ("\n" + fromBody);
    assert s == (base + line + "\n") + fromBody;
  }

  lemma LineIsThere(s: string, line: string, header: Header, after: string, x: Syntax)
    requires '\n' !in line && TrimSpace(line) == line && x.header(line) == Some(header) && s == line + "\n" + after
    ensures ReadLine(s, x) == Some((header, |line| + 1))
  {
    LineIsRead(line, header, after, x);
  }

  lemma BodyIsThere(s: string, body: string, end: string, after: string, p: string)
    requires IsMarker(p) && IsFree(body, p) && p <= end && s == body + end + "\n" + after
    ensures BodyEnd(s, end) == Some(|body| + |end| + 1)
  {
    BodyIsRead(body, end, after, p);
  }

  lemma MarkerIsThere(s: string, base: string, fromLine: string, fromBody: string, line: string, p: string)
    requires IsMarker(p) && IsFree(base, p) && p <= line
    requires s == base + fromLine && fromLine == line + "\n" + fromBody
    ensures |base| + (|line| + 1) <= |s| && s[|base|..] == fromLine && s[|base| + (|line| + 1)..] == fromBody
    ensures Index(s, p) == Some(|base|)
  {
    BlockParts(s, base, fromLine, fromBody, line);
    MarkerIsFirst(base, line, "\n" + fromBody, p);
  }

  // A block at its place: `fromLine` is the text from its first line on,
  // `fromBody` that from its second.
  lemma FirstBlock(s: string, base: string, fromLine: string, fromBody: string, line: string, header: Header,
                   body: string, rest: string,
                   x: Syntax)
    requires IsMarker(x.prefix) && IsFree(base, x.prefix) && IsFree(body, x.prefix)
    requires x.prefix <= line && '\n' !in line && TrimSpace(line) == line
    requires x.prefix <= header.end && x.header(line) == Some(header)
    requires s == base + fromLine && fromLine == line + "\n" + fromBody && fromBody == body + header.end + "\n" + rest
    ensures NextFragment(s, x) == Found(|base|, header.id, |base| + (|line| + 1) + (|body| + |header.end| + 1))
  {
    LineIsThere(fromLine, line, header, fromBody, x);
    BodyIsThere(fromBody, body, header.end, rest, x.prefix);
    MarkerIsThere(s, base, fromLine, fromBody, line, x.prefix);
    NextIs(s, x, |base|, header, |line| + 1, |body| + |header.end| + 1, fromLine, fromBody);
  }

  lemma NextIs(s: string, x: Syntax, start: nat, header: Header, n: nat, m: nat, fromLine: string, fromBody: string)
    requires Index(s, x.prefix) == Some(start)
    requires start + n <= |s| && s[start..] == fromLine && s[start + n..] == fromBody
    requires ReadLine(fromLine, x) == Some((header, n)) && BodyEnd(fromBody, header.end) == Some(m)
    ensures NextFragment(s, x) == Found(start, header.id, start + n + m)
  {
  }

  lemma CutAt(a: string, b: string, c: string)
    ensures (a + b + c)[..|a|] == a && (a + b + c)[|a|..|a| + |b|] == b && (a + b + c)[|a| + |b|..] == c
  {
  }

  // Cutting gives back exactly what was printed.
  lemma {:induction false} ParsePrint(l: Layout, x: Syntax)
    requires IsMarker(x.prefix) && IsLayout(l, x)
    ensures Parse(Print(l), x) == Some(CutOf(l))
  {
    match l
    case Last(base) =>
      NotFound(base, x.prefix);
    case Block(base, line, header, body, rest) =>
      var fromBody := body + header.end + "\n" + Print(rest);
      assert Print(l) == base + (line + "\n" + fromBody);
      FirstBlock(Print(l), base, line + "\n" + fromBody, fromBody, line, header, body, Print(rest), x);
      ParsePrint(rest, x);
      CutAt(base, BlockText(line, body, header.end), Print(rest));
  }

  // ---------- cutting in a loop ----------

  // The cut of a text after what the loop has gone through.
  predicate Continues(whole: Option<Cut>, base: string, fragments: seq<Fragment>, rest: Option<Cut>) {
    match rest
    case None => whole == None
    case Some(c) =>
      whole.Some? && BaseOf(whole.value) == base + BaseOf(c) && FragmentsOf(whole.value) == fragments + FragmentsOf(c)
  }

  lemma ContinuesPast(whole: Option<Cut>, base: string, fragments: seq<Fragment>, tail: Option<Cut>, b: string,
                      id: string, text: string)
    requires Continues(whole, base, fragments, if tail.None? then None else Some(Piece(b, id, text, tail.value)))
    ensures Continues(whole, base + b, fragments + [Fragment(id, text)], tail)
  {
    if tail.Some? {
      assert base + (b + BaseOf(tail.value)) == (base + b) + BaseOf(tail.value);
      var f := Fragment(id, text);
      assert fragments + ([f] + FragmentsOf(tail.value)) == (fragments + [f]) + FragmentsOf(tail.value);
    }
  }

  // Before a turn of the loop.
  predicate IsLeft(whole: Option<Cut>, base: string, fragments: seq<Fragment>, rest: string, x: Syntax) {
    Continues(whole, base, fragments, Parse(rest, x))
  }

  lemma LeftAtStart(configuration: string, x: Syntax)
    ensures IsLeft(Parse(configuration, x), "", [], configuration, x)
  {
    if Parse(configuration, x).Some? {
      assert "" + BaseOf(Parse(configuration, x).value) == BaseOf(Parse(configuration, x).value);
    }
  }

  // The turn that finds a marker.
  lemma LeftPastFragment(whole: Option<Cut>, base: string, fragments: seq<Fragment>, rest: string, x: Syntax,
                         start: nat, id: string, end: nat)
    requires IsLeft(whole, base, fragments, rest, x) && NextFragment(rest, x) == Found(start, id, end)
    ensures start < end <= |rest|
    ensures IsLeft(whole, base + rest[..start], fragments + [Fragment(id, rest[start..end])], rest[end..], x)
  {
    ContinuesPast(whole, base, fragments, Parse(rest[end..], x), rest[..start], id, rest[start..end]);
  }

  // The turn that finds none, or a broken one.
  lemma LeftAtEnd(whole: Option<Cut>, base: string, fragments: seq<Fragment>, rest: string, x: Syntax)
    requires IsLeft(whole, base, fragments, rest, x) && !NextFragment(rest, x).Found?
    ensures whole.Some? <==> NextFragment(rest, x) == Done
    ensures whole.Some? ==> BaseOf(whole.value) == base + rest && FragmentsOf(whole.value) == fragments
  {
  }

  lemma SlicedTwice(s: string, i: nat, j: nat)
    requires i + j <= |s|
    ensures s[i..][j..] == s[i + j..]
  {
  }

  // ---------- fragments as files ----------

  function NameChars(id: string): (n: string)
    ensures |n| == |id| && forall i :: 0 <= i < |id| ==> n[i] == if IsNameChar(id[i]) then id[i] else '-'
  {
    seq(|id|, i requires 0 <= i < |id| => if IsNameChar(id[i]) then id[i] else '-')
  }

  function SiteFragmentName(id: string): string {
    "site-" + NameChars(id) + ".conf"
  }

  predicate IsPlain(id: string) {
    forall i :: 0 <= i < |id| ==> IsNameChar(id[i])
  }

  // Plain ids have names of their own.
  lemma NamesAreDistinct(a: string, b: string)
    requires IsPlain(a) && IsPlain(b) && SiteFragmentName(a) == SiteFragmentName(b)
    ensures a == b
  {
    assert NameChars(a) == a && NameChars(b) == b;
    assert SiteFragmentName(a)[5..5 + |a|] == a;
    assert |SiteFragmentName(a)| == |a| + 10 && |SiteFragmentName(b)| == |b| + 10;
    assert SiteFragmentName(b)[5..5 + |b|] == b;
  }

  // Other ids need not: these two are told apart as little as their files.
  lemma NamesCanMeet()
    ensures SiteFragmentName("a b") == SiteFragmentName("a-b")
  {
    assert NameChars("a b") == NameChars("a-b");
  }
}
