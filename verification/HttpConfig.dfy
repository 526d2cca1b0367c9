// Cutting the HTTP configuration of a node into its base and its sites.
module HttpConfig {
  import opened Options
  import opened Strings
  import opened ConfigFragments

  const MARKER := "# CDN HTTP site fragment "

  predicate HasSuffix(s: string, suffix: string) {
    |suffix| <= |s| && s[|s| - |suffix|..] == suffix
  }

  function TrimSuffix(s: string, suffix: string): string {
    if HasSuffix(s, suffix) then s[..|s| - |suffix|] else s
  }

  function TrimPrefix(s: string, prefix: string): string {
    if prefix <= s then s[|prefix|..] else s
  }

  function HeaderOf(p: string, line: string): Option<Header> {
    if !HasSuffix(line, " begin") then None
    else
      var id := TrimSuffix(TrimPrefix(line, p), " begin");
      if id == "" then None else Some(Header(id, p + id + " end"))
  }

  function SyntaxOf(p: string): Syntax {
    Syntax(p, line => HeaderOf(p, line))
  }

  datatype File = File(name: string, content: string)

  function Files(fragments: seq<Fragment>, name: string -> string): (files: seq<File>)
    ensures |files| == |fragments|
    ensures forall i :: 0 <= i < |files| ==> files[i] == File(name(fragments[i].id), fragments[i].text)
  {
    seq(|fragments|, i requires 0 <= i < |fragments| => File(name(fragments[i].id), fragments[i].text))
  }

  // `x` is how marker lines are read, `name` how files are named; the cursor moves past one fragment after the other.
  method SplitHTTPConfig(configuration: string, x: Syntax, name: string -> string)
    returns (ok: bool, base: string, files: seq<File>)
    ensures ok <==> Parse(configuration, x).Some?
    ensures ok ==> base == BaseOf(Parse(configuration, x).value)
    ensures ok ==> files == Files(FragmentsOf(Parse(configuration, x).value), name)
  {
    base, files := "", [];
    var cursor := 0;
    ghost var whole, fragments := Parse(configuration, x), [];
    var rest := configuration;
    LeftAtStart(configuration, x);
    while true
      invariant cursor <= |configuration| && rest == configuration[cursor..]
      invariant IsLeft(whole, base, fragments, rest, x)
      invariant files == Files(fragments, name)
      decreases |configuration| - cursor
    {
      match NextFragment(rest, x) {
        case Done =>
          LeftAtEnd(whole, base, fragments, rest, x);
          return true, base + rest, files;
        case Broken =>
          LeftAtEnd(whole, base, fragments, rest, x);
          return false, base, files;
        case Found(start, id, end) =>
          LeftPastFragment(whole, base, fragments, rest, x, start, id, end);
          var text := rest[start..end];
          FilesGrow(fragments, Fragment(id, text), name);
          base, files, fragments := base + rest[..start], files + [File(name(id), text)], fragments + [Fragment(id, text)];
          SlicedTwice(configuration, cursor, end);
          cursor, rest := cursor + end, rest[end..];
      }
    }
  }

  lemma FilesGrow(fragments: seq<Fragment>, f: Fragment, name: string -> string)
    ensures Files(fragments + [f], name) == Files(fragments, name) + [File(name(f.id), f.text)]
  {
  }

  // ---------- printing and cutting ----------

  datatype Site = Site(before: string, id: string, body: string)

  function LayoutOf(sites: seq<Site>, last: string, p: string): Layout {
    if sites == [] then Last(last)
    else
      var s := sites[0];
      Block(s.before, p + s.id + " begin", Header(s.id, p + s.id + " end"), s.body, LayoutOf(sites[1..], last, p))
  }

  predicate CanBePrinted(s: Site, p: string) {
    IsFree(s.before, p) && IsFree(s.body, p) && s.id != "" && '\n' !in s.id
  }

  lemma LineIsUnderstood(p: string, id: string)
    requires p != "" && !IsSpace(p[0]) && '\n' !in p && id != "" && '\n' !in id
    ensures TrimSpace(p + id + " begin") == p + id + " begin" && '\n' !in p + id + " begin"
    ensures HeaderOf(p, p + id + " begin") == Some(Header(id, p + id + " end"))
  {
    var line := p + id + " begin";
    assert line[|line| - 6..] == " begin";
    assert line[|line| - 1] == 'n';
    TrimNothing(line);
    assert TrimPrefix(line, p) == id + " begin";
    assert (id + " begin")[|id|..] == " begin";
  }

  lemma {:induction false} LayoutIsReadable(sites: seq<Site>, last: string, p: string)
    requires IsMarker(p) && !IsSpace(p[0]) && '\n' !in p
    requires IsFree(last, p) && forall s :: s in sites ==> CanBePrinted(s, p)
    ensures IsLayout(LayoutOf(sites, last, p), SyntaxOf(p))
  {
    if sites != [] {
      assert CanBePrinted(sites[0], p);
      LineIsUnderstood(p, sites[0].id);
      LayoutIsReadable(sites[1..], last, p);
    }
  }

  function Bases(sites: seq<Site>, last: string): string {
    if sites == [] then last else sites[0].before + Bases(sites[1..], last)
  }

  // What is printed for the sites comes back: all base text, and each site's
  // lines with its markers, in order.
  lemma {:induction false} PrintedIsSplit(sites: seq<Site>, last: string, p: string)
    requires IsMarker(p) && !IsSpace(p[0]) && '\n' !in p
    requires IsFree(last, p) && forall s :: s in sites ==> CanBePrinted(s, p)
    ensures var cut := Parse(Print(LayoutOf(sites, last, p)), SyntaxOf(p));
      && cut.Some? && BaseOf(cut.value) == Bases(sites, last) && |FragmentsOf(cut.value)| == |sites|
      && forall i :: 0 <= i < |sites| ==>
           FragmentsOf(cut.value)[i] ==
             Fragment(sites[i].id, BlockText(p + sites[i].id + " begin", sites[i].body, p + sites[i].id + " end"))
  {
    LayoutIsReadable(sites, last, p);
    ParsePrint(LayoutOf(sites, last, p), SyntaxOf(p));
    CutOfLayout(sites, last, p);
  }

  lemma {:induction false} CutOfLayout(sites: seq<Site>, last: string, p: string)
    ensures var cut := CutOf(LayoutOf(sites, last, p));
      && BaseOf(cut) == Bases(sites, last) && |FragmentsOf(cut)| == |sites|
      && forall i :: 0 <= i < |sites| ==>
           FragmentsOf(cut)[i] ==
             Fragment(sites[i].id, BlockText(p + sites[i].id + " begin", sites[i].body, p + sites[i].id + " end"))
  {
    if sites != [] {
      CutOfLayout(sites[1..], last, p);
    }
  }

  // The marker of the source is one.
  lemma MarkerIsMarker()
    ensures IsMarker(MARKER) && !IsSpace(MARKER[0]) && '\n' !in MARKER
  {
  }
}
