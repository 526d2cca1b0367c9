// Rendering the TCP forwards of a node, and cutting them up again by site.
module StreamConfig {
  import opened Options
  import opened Strings
  import opened ConfigFragments

  // ---------- words of a line ----------

  function WordLength(s: string): (n: nat)
    ensures n <= |s|
  {
    if s == "" || IsSpace(s[0]) then 0 else 1 + WordLength(s[1..])
  }

  function Fields(s: string): seq<string>
    decreases |s|
  {
    if s == "" then []
    else if IsSpace(s[0]) then Fields(s[1..])
    else [s[..WordLength(s)]] + Fields(s[WordLength(s)..])
  }

  predicate IsWord(w: string) {
    w != "" && forall i :: 0 <= i < |w| ==> !IsSpace(w[i])
  }

  lemma {:induction false} WordEnds(w: string, rest: string)
    requires forall i :: 0 <= i < |w| ==> !IsSpace(w[i])
    requires rest == "" || IsSpace(rest[0])
    ensures WordLength(w + rest) == |w|
  {
    if w != "" {
      assert (w + rest)[1..] == w[1..] + rest;
      WordEnds(w[1..], rest);
    } else {
      assert w + rest == rest;
    }
  }

  // Words between single spaces.
  function Spaced(words: seq<string>): string
    requires words != []
  {
    if |words| == 1 then words[0] else words[0] + " " + Spaced(words[1..])
  }

  lemma {:induction false} FieldsOfSpaced(words: seq<string>)
    requires words != [] && forall w :: w in words ==> IsWord(w)
    ensures Fields(Spaced(words)) == words
  {
    var w := words[0];
    assert IsWord(w);
    if |words| == 1 {
      WordEnds(w, "");
      assert w + "" == w;
      assert words == [w];
    } else {
      var more := Spaced(words[1..]);
      var line := w + (" " + more);
      assert Spaced(words) == line;
      WordEnds(w, " " + more);
      assert line[..|w|] == w && line[|w|..] == " " + more;
      assert (" " + more)[1..] == more;
      FieldsOfSpaced(words[1..]);
      assert Fields(" " + more) == words[1..];
      assert words == [w] + words[1..];
    }
  }

  // ---------- markers ----------

  // The five words that start a marker line.
  datatype Marker = Marker(a: string, b: string, c: string, d: string, e: string)

  function Words(m: Marker): seq<string> {
    [m.a, m.b, m.c, m.d, m.e]
  }

  predicate IsPrefix(m: Marker) {
    IsWord(m.a) && IsWord(m.b) && IsWord(m.c) && IsWord(m.d) && IsWord(m.e)
  }

  function PrefixText(m: Marker): string {
    m.a + " " + m.b + " " + m.c + " " + m.d + " " + m.e + " "
  }

  function HeaderOf(m: Marker, line: string): Option<Header> {
    var f := Fields(line);
    if |f| != 9 || f[..5] != Words(m) || f[6] != "port" || f[8] != "begin" then None
    else Some(Header(f[5], EndLine(m, f[5], f[7])))
  }

  function SyntaxOf(m: Marker): Syntax {
    Syntax(PrefixText(m), line => HeaderOf(m, line))
  }

  const STREAM := Marker("#", "CDN", "stream", "site", "fragment")

  lemma StreamIsPrefix()
    ensures IsPrefix(STREAM) && HasOneHash(STREAM)
  {
  }

  // The hash sign starts the marker and does not come again.
  predicate HasOneHash(m: Marker) {
    m.a == "#" && '#' !in m.b && '#' !in m.c && '#' !in m.d && '#' !in m.e
  }

  lemma PrefixIsMarker(m: Marker)
    requires IsPrefix(m) && HasOneHash(m)
    ensures IsMarker(PrefixText(m)) && PrefixText(m)[0] == '#' && '\n' !in PrefixText(m)
  {
    var rest := " " + m.b + " " + m.c + " " + m.d + " " + m.e + " ";
    assert PrefixText(m) == m.a + rest;
    assert '#' !in rest;
    assert forall w :: w in {m.b, m.c, m.d, m.e} ==> IsWord(w);
    assert '\n' !in rest;
  }

  lemma SpacedCons(w: string, more: seq<string>)
    requires more != []
    ensures Spaced([w] + more) == w + " " + Spaced(more)
  {
    assert ([w] + more)[1..] == more;
  }

  lemma {:induction false} SpacedAppend(a: seq<string>, b: seq<string>)
    requires a != [] && b != []
    ensures Spaced(a + b) == Spaced(a) + " " + Spaced(b)
  {
    if |a| == 1 {
      assert a + b == [a[0]] + b;
      SpacedCons(a[0], b);
    } else {
      assert (a + b)[1..] == a[1..] + b;
      SpacedAppend(a[1..], b);
    }
  }

  // The prefix is what comes before the words that follow it.
  lemma PrefixThenWords(m: Marker, more: seq<string>)
    requires more != []
    ensures Spaced(Words(m) + more) == PrefixText(m) + Spaced(more)
  {
    SpacedAppend(Words(m), more);
    SpacedCons(m.a, [m.b, m.c, m.d, m.e]);
    FourWords(m.b, m.c, m.d, m.e);
    assert Words(m) == [m.a] + [m.b, m.c, m.d, m.e];
    FirstOfFive(m.a, m.b, m.c, m.d, m.e);
  }

  lemma FirstOfFive(a: string, b: string, c: string, d: string, e: string)
    ensures a + " " + (b + " " + c + " " + d + " " + e) == a + " " + b + " " + c + " " + d + " " + e
  {
  }

  function Line(m: Marker, id: string, port: string): string {
    PrefixText(m) + id + " port " + port + " begin"
  }

  function EndLine(m: Marker, id: string, port: string): string {
    PrefixText(m) + id + " port " + port + " end"
  }

  lemma FourWords(a: string, b: string, c: string, d: string)
    ensures Spaced([a, b, c, d]) == a + " " + b + " " + c + " " + d
  {
    SpacedCons(c, [d]);
    SpacedCons(b, [c, d]);
    SpacedCons(a, [b, c, d]);
    assert [a] + [b, c, d] == [a, b, c, d] && [b] + [c, d] == [b, c, d] && [c] + [d] == [c, d];
    assert a + " " + (b + " " + (c + " " + d)) == a + " " + b + " " + c + " " + d;
  }

  lemma LineParts(p: string, id: string, port: string)
    ensures p + id + " port " + port + " begin" == p + (id + " " + "port" + " " + port + " " + "begin")
  {
    assert " port " == " " + "port" + " " && " begin" == " " + "begin";
  }

  lemma LineIsUnderstood(m: Marker, id: string, port: string)
    requires IsPrefix(m) && IsWord(id) && IsWord(port)
    ensures HeaderOf(m, Line(m, id, port)) == Some(Header(id, EndLine(m, id, port)))
  {
    var more := [id, "port", port, "begin"];
    assert IsWord("port") && IsWord("begin");
    FieldsOfSpaced(Words(m) + more);
    PrefixThenWords(m, more);
    FourWords(id, "port", port, "begin");
    LineParts(PrefixText(m), id, port);
    assert (Words(m) + more)[..5] == Words(m);
  }

  // ---------- rendering ----------

  datatype Forward = Forward(port: nat, details: string)

  datatype Site = Site(id: string, tcpOnly: bool, enabled: bool, forwards: seq<Forward>)

  datatype Item = Item(site: string, forward: Forward)

  // The forwards of the first `n` forwards of one site, and of all enabled ones.
  function SiteItems(site: Site, n: nat): seq<Item>
    requires n <= |site.forwards|
  {
    if n == 0 then [] else SiteItems(site, n - 1) + [Item(site.id, site.forwards[n - 1])]
  }

  function AllItems(sites: seq<Site>, n: nat): seq<Item>
    requires n <= |sites|
  {
    if n == 0 then []
    else AllItems(sites, n - 1) + if sites[n - 1].enabled then SiteItems(sites[n - 1], |sites[n - 1].forwards|) else []
  }

  predicate DistinctPorts(items: seq<Item>) {
    forall i, j :: 0 <= i < j < |items| ==> items[i].forward.port != items[j].forward.port
  }

  predicate Mixed(sites: seq<Site>) {
    (exists s :: s in sites && s.tcpOnly) && exists s :: s in sites && !s.tcpOnly
  }

  function Ports(items: seq<Item>): set<nat> {
    set it | it in items :: it.forward.port
  }

  method CollectSite(site: Site, before: seq<Item>, owned: set<nat>)
    returns (ok: bool, items: seq<Item>, owned': set<nat>)
    requires DistinctPorts(before) && owned == Ports(before)
    ensures ok ==> items == before + SiteItems(site, |site.forwards|) && DistinctPorts(items) && owned' == Ports(items)
    ensures !ok ==> !DistinctPorts(before + SiteItems(site, |site.forwards|))
  {
    items, owned' := before, owned;
    for i := 0 to |site.forwards|
      invariant items == before + SiteItems(site, i) && DistinctPorts(items) && owned' == Ports(items)
    {
      var it := Item(site.id, site.forwards[i]);
      if it.forward.port in owned' {
        PortIsTaken(items, it);
        assert items + [it] == before + SiteItems(site, i + 1);
        PrefixIsDistinct(before, site, i + 1, |site.forwards|);
        return false, items, owned';
      }
      PortsGrow(items, it);
      assert items + [it] == before + SiteItems(site, i + 1);
      items, owned' := items + [it], owned' + {it.forward.port};
    }
    ok := true;
  }

  lemma PortIsTaken(items: seq<Item>, it: Item)
    requires it.forward.port in Ports(items)
    ensures !DistinctPorts(items + [it])
  {
    var i :| 0 <= i < |items| && items[i].forward.port == it.forward.port;
    assert (items + [it])[i] == items[i] && (items + [it])[|items|] == it;
  }

  lemma PortsGrow(items: seq<Item>, it: Item)
    ensures Ports(items + [it]) == Ports(items) + {it.forward.port}
  {
    assert forall x :: x in items + [it] <==> x in items || x == it;
  }

  lemma {:induction false} PrefixIsDistinct(before: seq<Item>, site: Site, n: nat, m: nat)
    requires n <= m <= |site.forwards|
    ensures DistinctPorts(before + SiteItems(site, m)) ==> DistinctPorts(before + SiteItems(site, n))
  {
    if n < m && DistinctPorts(before + SiteItems(site, m)) {
      assert before + SiteItems(site, m) == (before + SiteItems(site, m - 1)) + [Item(site.id, site.forwards[m - 1])];
      ShorterIsDistinct(before + SiteItems(site, m - 1), [Item(site.id, site.forwards[m - 1])]);
      PrefixIsDistinct(before, site, n, m - 1);
    }
  }

  lemma ShorterIsDistinct(a: seq<Item>, b: seq<Item>)
    requires DistinctPorts(a + b)
    ensures DistinctPorts(a)
  {
    assert forall i :: 0 <= i < |a| ==> (a + b)[i] == a[i];
  }

  method CollectItems(sites: seq<Site>) returns (ok: bool, items: seq<Item>)
    ensures ok ==> items == AllItems(sites, |sites|)
    ensures ok <==> DistinctPorts(AllItems(sites, |sites|))
  {
    items := [];
    var owned: set<nat> := {};
    for i := 0 to |sites|
      invariant items == AllItems(sites, i) && DistinctPorts(items) && owned == Ports(items)
    {
      if sites[i].enabled {
        ghost var before := items;
        ok, items, owned := CollectSite(sites[i], items, owned);
        if !ok {
          assert AllItems(sites, i + 1) == before + SiteItems(sites[i], |sites[i].forwards|);
          MoreStaysTaken(sites, i + 1, |sites|);
          return;
        }
      }
    }
    ok := true;
  }

  lemma {:induction false} MoreStaysTaken(sites: seq<Site>, n: nat, m: nat)
    requires n <= m <= |sites| && !DistinctPorts(AllItems(sites, n))
    ensures !DistinctPorts(AllItems(sites, m))
  {
    if n < m {
      MoreStaysTaken(sites, n, m - 1);
      var s := sites[m - 1];
      var more := if s.enabled then SiteItems(s, |s.forwards|) else [];
      if DistinctPorts(AllItems(sites, m - 1) + more) {
        ShorterIsDistinct(AllItems(sites, m - 1), more);
      }
    }
  }

  predicate SortedByPort(items: seq<Item>) {
    forall i, j :: 0 <= i < j < |items| ==> items[i].forward.port < items[j].forward.port
  }

  method FirstPort(items: seq<Item>, ports: set<nat>) returns (i: nat)
    requires ports <= Ports(items) && ports != {}
    ensures i < |items| && items[i].forward.port in ports && forall p :: p in ports ==> items[i].forward.port <= p
  {
    ghost var p :| p in ports;
    ghost var it :| it in items && it.forward.port == p;
    var found := false;
    i := 0;
    for j := 0 to |items|
      invariant !found ==> forall k :: 0 <= k < j ==> items[k].forward.port !in ports
      invariant found ==> i < j && items[i].forward.port in ports
      invariant found ==>
        forall k :: 0 <= k < j && items[k].forward.port in ports ==> items[i].forward.port <= items[k].forward.port
    {
      if items[j].forward.port in ports && (!found || items[j].forward.port < items[i].forward.port) {
        found, i := true, j;
      }
    }
    forall q | q in ports
      ensures items[i].forward.port <= q
    {
      var other :| other in items && other.forward.port == q;
    }
  }

  // While the items of the ports in `rest` are still to come.
  ghost predicate Sorting(items: seq<Item>, sorted: seq<Item>, rest: set<nat>) {
    && rest <= Ports(items) && SortedByPort(sorted) && |sorted| + |rest| == |items|
    && (forall it :: it in sorted <==> it in items && it.forward.port !in rest)
    && (forall it, p :: it in sorted && p in rest ==> it.forward.port < p)
  }

  lemma SortingNext(items: seq<Item>, sorted: seq<Item>, rest: set<nat>, it: Item)
    requires Sorting(items, sorted, rest) && it in items && it.forward.port in rest
    requires forall p :: p in rest ==> it.forward.port <= p
    requires forall other :: other in items && other.forward.port == it.forward.port ==> other == it
    ensures Sorting(items, sorted + [it], rest - {it.forward.port})
  {
    var next, left := sorted + [it], rest - {it.forward.port};
    assert forall x :: x in next <==> x in sorted || x == it;
    assert forall i :: 0 <= i < |sorted| ==> sorted[i] in sorted;
  }

  method SortByPort(items: seq<Item>) returns (sorted: seq<Item>)
    requires DistinctPorts(items)
    ensures SortedByPort(sorted) && |sorted| == |items| && forall it :: it in sorted <==> it in items
  {
    sorted := [];
    var rest := Ports(items);
    PortCount(items);
    while rest != {}
      invariant Sorting(items, sorted, rest)
    {
      var i := FirstPort(items, rest);
      var it := items[i];
      SortingNext(items, sorted, rest, it);
      sorted, rest := sorted + [it], rest - {it.forward.port};
    }
  }

  lemma {:induction false} PortCount(items: seq<Item>)
    requires DistinctPorts(items)
    ensures |Ports(items)| == |items|
  {
    if items != [] {
      var init, last := items[..|items| - 1], items[|items| - 1];
      assert items == init + [last];
      PortCount(init);
      PortsGrow(init, last);
      if last.forward.port in Ports(init) {
        PortIsTaken(init, last);
      }
    }
  }

  // ---------- the text ----------

  // The text of a server and of what comes before all of them.
  datatype Template = Template(server: Item -> string, head: seq<Item> -> string)

  function PortOf(it: Item): string {
    Decimal(it.forward.port)
  }

  function ItemText(it: Item, m: Marker, t: Template): string {
    BlockText(Line(m, it.site, PortOf(it)), t.server(it), EndLine(m, it.site, PortOf(it)))
  }

  function BlocksFrom(items: seq<Item>, i: nat, m: Marker, t: Template): string
    requires i <= |items|
    decreases |items| - i
  {
    if i == |items| then "" else "\n" + ItemText(items[i], m, t) + BlocksFrom(items, i + 1, m, t)
  }

  function LayoutFrom(base: string, items: seq<Item>, i: nat, m: Marker, t: Template): Layout
    requires i <= |items|
    decreases |items| - i
  {
    if i == |items| then Last(base)
    else
      var it := items[i];
      Block(base + "\n", Line(m, it.site, PortOf(it)), Header(it.site, EndLine(m, it.site, PortOf(it))), t.server(it),
            LayoutFrom("", items, i + 1, m, t))
  }

  lemma InFrontOf(a: string, b: string, c: string, d: string)
    ensures a + b + c + ("" + d) == a + (b + c + d)
  {
  }

  lemma {:induction false} LayoutIsPrinted(base: string, items: seq<Item>, i: nat, m: Marker, t: Template)
    requires i <= |items|
    ensures Print(LayoutFrom(base, items, i, m, t)) == base + BlocksFrom(items, i, m, t)
    decreases |items| - i
  {
    if i == |items| {
      assert base + "" == base;
    } else {
      LayoutIsPrinted("", items, i + 1, m, t);
      InFrontOf(base, "\n", ItemText(items[i], m, t), BlocksFrom(items, i + 1, m, t));
    }
  }

  // The blocks come in the order of their ports; two sites never share one.
  method RenderStream(sites: seq<Site>, m: Marker, t: Template, header: string)
    returns (ok: bool, text: string, ghost items: seq<Item>)
    ensures ok <==> DistinctPorts(AllItems(sites, |sites|)) && !Mixed(sites)
    ensures ok ==> SortedByPort(items) && |items| == |AllItems(sites, |sites|)|
    ensures ok ==> forall it :: it in items <==> it in AllItems(sites, |sites|)
    ensures ok ==> text == if items == [] then header else Print(LayoutFrom(t.head(items), items, 0, m, t))
  {
    items, text := [], "";
    var all;
    ok, all := CollectItems(sites);
    if !ok {
      return;
    }
    if Mixed(sites) {
      ok := false;
      return;
    }
    var sorted := SortByPort(all);
    items := sorted;
    if sorted == [] {
      text := header;
      return;
    }
    text := t.head(sorted);
    for i := 0 to |sorted|
      invariant text + BlocksFrom(sorted, i, m, t) == t.head(sorted) + BlocksFrom(sorted, 0, m, t)
    {
      var block := "\n" + ItemText(sorted[i], m, t);
      assert text + (block + BlocksFrom(sorted, i + 1, m, t)) == (text + block) + BlocksFrom(sorted, i + 1, m, t);
      text := text + block;
    }
    assert text + "" == text;
    LayoutIsPrinted(t.head(sorted), sorted, 0, m, t);
  }

  // ---------- cutting up again ----------

  type Groups = map<string, string>

  // Fragments of one file name are put together, in their order.
  function Grouped(fragments: seq<Fragment>, n: nat, name: string -> string): Groups
    requires n <= |fragments|
  {
    if n == 0 then map[] else Joined(Grouped(fragments, n - 1, name), name(fragments[n - 1].id), fragments[n - 1].text)
  }

  function Joined(g: Groups, name: string, text: string): Groups {
    g[name := (if name in g then g[name] else "") + text]
  }

  lemma {:induction false} GroupsGrow(fragments: seq<Fragment>, f: Fragment, n: nat, name: string -> string)
    requires n <= |fragments|
    ensures Grouped(fragments + [f], n, name) == Grouped(fragments, n, name)
  {
    if n > 0 {
      GroupsGrow(fragments, f, n - 1, name);
    }
  }

  lemma {:induction false} GroupedNext(fragments: seq<Fragment>, f: Fragment, name: string -> string)
    ensures Grouped(fragments + [f], |fragments + [f]|, name) ==
      Joined(Grouped(fragments, |fragments|, name), name(f.id), f.text)
  {
    GroupsGrow(fragments, f, |fragments|, name);
  }

  method SplitStreamConfig(configuration: string, x: Syntax, name: string -> string)
    returns (ok: bool, base: string, grouped: Groups)
    ensures ok <==> Parse(configuration, x).Some?
    ensures ok ==>
      var cut := Parse(configuration, x).value;
      base == BaseOf(cut) && grouped == Grouped(FragmentsOf(cut), |FragmentsOf(cut)|, name)
  {
    base, grouped := "", map[];
    var cursor, rest := 0, configuration;
    ghost var whole, fragments := Parse(configuration, x), [];
    LeftAtStart(configuration, x);
    while true
      invariant cursor <= |configuration| && rest == configuration[cursor..]
      invariant IsLeft(whole, base, fragments, rest, x)
      invariant grouped == Grouped(fragments, |fragments|, name)
      decreases |configuration| - cursor
    {
      match NextFragment(rest, x) {
        case Done =>
          LeftAtEnd(whole, base, fragments, rest, x);
          return true, base + rest, grouped;
        case Broken =>
          LeftAtEnd(whole, base, fragments, rest, x);
          return false, base, grouped;
        case Found(start, id, end) =>
          LeftPastFragment(whole, base, fragments, rest, x, start, id, end);
          var text := rest[start..end];
          GroupedNext(fragments, Fragment(id, text), name);
          base, grouped, fragments := base + rest[..start], Joined(grouped, name(id), text), fragments + [Fragment(id, text)];
          SlicedTwice(configuration, cursor, end);
          cursor, rest := cursor + end, rest[end..];
      }
    }
  }

  // ---------- rendering, then cutting ----------

  // All that is asked of the text between the markers, and of the ids.
  ghost predicate CanBeRendered(items: seq<Item>, m: Marker, t: Template) {
    && IsPrefix(m) && HasOneHash(m) && IsFree(t.head(items), PrefixText(m))
    && forall it :: it in items ==> IsWord(it.site) && IsFree(t.server(it), PrefixText(m))
  }

  lemma FreeBeforeNewline(s: string, p: string)
    requires IsFree(s, p) && p != "" && '\n' !in p
    ensures IsFree(s + "\n", p)
  {
    forall k | 0 <= k <= |s| + 1
      ensures !Occurs(p, s + "\n", k)
    {
      if k + |p| <= |s| {
        assert (s + "\n")[k..k + |p|] == s[k..k + |p|];
        assert !Occurs(p, s, k);
      } else if k + |p| == |s| + 1 {
        assert (s + "\n")[k..k + |p|][|p| - 1] == '\n';
        assert p[|p| - 1] in p;
      }
    }
  }

  lemma LineIsTrim(m: Marker, id: string, port: string)
    requires IsPrefix(m) && HasOneHash(m) && IsWord(id) && IsWord(port)
    ensures TrimSpace(Line(m, id, port)) == Line(m, id, port) && '\n' !in Line(m, id, port)
    ensures PrefixText(m) <= Line(m, id, port) && PrefixText(m) <= EndLine(m, id, port)
  {
    PrefixIsMarker(m);
    var line := Line(m, id, port);
    var p := PrefixText(m);
    assert line == p + (id + " port " + port + " begin");
    assert EndLine(m, id, port) == p + (id + " port " + port + " end");
    assert line[0] == '#' && line[|line| - 1] == 'n';
    TrimNothing(line);
    assert '\n' !in id && '\n' !in port;
  }

  lemma DecimalIsWord(n: nat)
    ensures IsWord(Decimal(n))
  {
    assert forall i :: 0 <= i < |Decimal(n)| ==> Decimal(n)[i] in Decimal(n);
  }

  lemma {:induction false} LayoutIsReadable(base: string, items: seq<Item>, i: nat, m: Marker, t: Template)
    requires i <= |items| && CanBeRendered(items, m, t) && IsFree(base, PrefixText(m))
    ensures IsLayout(LayoutFrom(base, items, i, m, t), SyntaxOf(m))
    decreases |items| - i
  {
    PrefixIsMarker(m);
    if i < |items| {
      var it := items[i];
      assert it in items;
      DecimalIsWord(it.forward.port);
      LineIsTrim(m, it.site, PortOf(it));
      LineIsUnderstood(m, it.site, PortOf(it));
      FreeBeforeNewline(base, PrefixText(m));
      assert IsFree("", PrefixText(m));
      LayoutIsReadable("", items, i + 1, m, t);
    }
  }

  lemma {:induction false} CutOfItems(base: string, items: seq<Item>, i: nat, m: Marker, t: Template)
    requires i <= |items|
    ensures var fragments := FragmentsOf(CutOf(LayoutFrom(base, items, i, m, t)));
      |fragments| == |items| - i
      && forall k :: 0 <= k < |fragments| ==> fragments[k] == Fragment(items[i + k].site, ItemText(items[i + k], m, t))
    decreases |items| - i
  {
    if i < |items| {
      CutOfItems("", items, i + 1, m, t);
    }
  }

  // The blocks of one site among the first `n` items, in their order.
  function SiteText(items: seq<Item>, n: nat, site: string, m: Marker, t: Template): string
    requires n <= |items|
  {
    if n == 0 then ""
    else SiteText(items, n - 1, site, m, t) + if items[n - 1].site == site then ItemText(items[n - 1], m, t) else ""
  }

  // Sites that have files of their own.
  ghost predicate TellsApart(name: string -> string, items: seq<Item>) {
    forall it, other :: it in items && other in items && name(it.site) == name(other.site) ==> it.site == other.site
  }

  // The fragments of one id among the first `n`, in their order.
  function TextOf(fragments: seq<Fragment>, n: nat, id: string): string
    requires n <= |fragments|
  {
    if n == 0 then "" else TextOf(fragments, n - 1, id) + if fragments[n - 1].id == id then fragments[n - 1].text else ""
  }

  predicate IsAmong(fragments: seq<Fragment>, n: nat, id: string)
    requires n <= |fragments|
  {
    n > 0 && (fragments[n - 1].id == id || IsAmong(fragments, n - 1, id))
  }

  lemma {:induction false} AmongThem(fragments: seq<Fragment>, n: nat, k: nat)
    requires k < n <= |fragments|
    ensures IsAmong(fragments, n, fragments[k].id)
  {
    if k < n - 1 {
      AmongThem(fragments, n - 1, k);
    }
  }

  // No other id shares the file name of this one.
  ghost predicate HasOwnName(fragments: seq<Fragment>, id: string, name: string -> string) {
    forall k :: 0 <= k < |fragments| && name(fragments[k].id) == name(id) ==> fragments[k].id == id
  }

  lemma JoinedAt(g: Groups, name: string, text: string, other: string)
    ensures other in Joined(g, name, text) <==> other == name || other in g
    ensures other != name && other in g ==> Joined(g, name, text)[other] == g[other]
    ensures Joined(g, name, text)[name] == (if name in g then g[name] else "") + text
  {
  }

  lemma {:induction false} GroupIsText(fragments: seq<Fragment>, n: nat, id: string, name: string -> string)
    requires n <= |fragments| && HasOwnName(fragments, id, name)
    ensures name(id) in Grouped(fragments, n, name) <==> IsAmong(fragments, n, id)
    ensures TextOf(fragments, n, id) ==
      if name(id) in Grouped(fragments, n, name) then Grouped(fragments, n, name)[name(id)] else ""
  {
    if n > 0 {
      GroupIsText(fragments, n - 1, id, name);
      var f := fragments[n - 1];
      JoinedAt(Grouped(fragments, n - 1, name), name(f.id), f.text, name(id));
      AddNothing(TextOf(fragments, n - 1, id));
      assert f.id != id ==> name(f.id) != name(id);
    }
  }

  lemma AddNothing(s: string)
    ensures s + "" == s
  {
  }

  lemma {:induction false} TextIsSite(fragments: seq<Fragment>, items: seq<Item>, n: nat, site: string, m: Marker,
                                      t: Template)
    requires n <= |items| == |fragments|
    requires forall k :: 0 <= k < |items| ==> fragments[k] == Fragment(items[k].site, ItemText(items[k], m, t))
    ensures SiteText(items, n, site, m, t) == TextOf(fragments, n, site)
  {
    if n > 0 {
      TextIsSite(fragments, items, n - 1, site, m, t);
    }
  }

  lemma {:induction false} GroupsHaveSites(fragments: seq<Fragment>, items: seq<Item>, n: nat, name: string -> string)
    requires n <= |items| == |fragments| && forall k :: 0 <= k < |items| ==> fragments[k].id == items[k].site
    ensures forall g :: g in Grouped(fragments, n, name) ==> exists it :: it in items && g == name(it.site)
  {
    if n > 0 {
      GroupsHaveSites(fragments, items, n - 1, name);
      assert items[n - 1] in items;
    }
  }

  ghost predicate SplitsBySite(groups: Groups, items: seq<Item>, m: Marker, t: Template, name: string -> string) {
    && (forall it :: it in items ==>
          name(it.site) in groups && groups[name(it.site)] == SiteText(items, |items|, it.site, m, t))
    && (forall g :: g in groups ==> exists it :: it in items && g == name(it.site))
  }

  lemma RenderedIsParsed(items: seq<Item>, m: Marker, t: Template)
    requires CanBeRendered(items, m, t)
    ensures Parse(Print(LayoutFrom(t.head(items), items, 0, m, t)), SyntaxOf(m)) ==
      Some(CutOf(LayoutFrom(t.head(items), items, 0, m, t)))
  {
    PrefixIsMarker(m);
    LayoutIsReadable(t.head(items), items, 0, m, t);
    ParsePrint(LayoutFrom(t.head(items), items, 0, m, t), SyntaxOf(m));
  }

  lemma {:induction false} GroupsSplitBySite(fragments: seq<Fragment>, items: seq<Item>, m: Marker, t: Template,
                                             name: string -> string)
    requires |fragments| == |items| && TellsApart(name, items)
    requires forall k :: 0 <= k < |items| ==> fragments[k] == Fragment(items[k].site, ItemText(items[k], m, t))
    ensures SplitsBySite(Grouped(fragments, |fragments|, name), items, m, t, name)
  {
    GroupsHaveSites(fragments, items, |items|, name);
    forall it | it in items
      ensures name(it.site) in Grouped(fragments, |items|, name)
      ensures Grouped(fragments, |items|, name)[name(it.site)] == SiteText(items, |items|, it.site, m, t)
    {
      var k :| 0 <= k < |items| && items[k] == it;
      AmongThem(fragments, |items|, k);
      GroupIsText(fragments, |items|, it.site, name);
      TextIsSite(fragments, items, |items|, it.site, m, t);
    }
  }

  // Cutting what was rendered gives one file for each site that has forwards,
  // with exactly its blocks in the order of their ports.
  lemma {:induction false} RenderedIsSplit(items: seq<Item>, m: Marker, t: Template, name: string -> string,
                                           cut: Option<Cut>)
    requires CanBeRendered(items, m, t) && TellsApart(name, items)
    requires cut == Parse(Print(LayoutFrom(t.head(items), items, 0, m, t)), SyntaxOf(m))
    ensures cut.Some? && SplitsBySite(Grouped(FragmentsOf(cut.value), |FragmentsOf(cut.value)|, name), items, m, t, name)
  {
    RenderedIsParsed(items, m, t);
    LayoutSplitsBySite(t.head(items), items, m, t, name);
  }

  lemma {:induction false} LayoutSplitsBySite(base: string, items: seq<Item>, m: Marker, t: Template,
                                              name: string -> string)
    requires TellsApart(name, items)
    ensures var fragments := FragmentsOf(CutOf(LayoutFrom(base, items, 0, m, t)));
      SplitsBySite(Grouped(fragments, |fragments|, name), items, m, t, name)
  {
    CutOfItems(base, items, 0, m, t);
    var fragments := FragmentsOf(CutOf(LayoutFrom(base, items, 0, m, t)));
    assert forall k :: 0 <= k < |fragments| ==> fragments[k] == Fragment(items[0 + k].site, ItemText(items[0 + k], m, t));
    GroupsSplitBySite(fragments, items, m, t, name);
  }

  // Plain ids, such as the source's, are told apart.
  lemma PlainIdsAreToldApart(items: seq<Item>)
    requires forall it :: it in items ==> IsPlain(it.site)
    ensures TellsApart(SiteFragmentName, items)
  {
    forall it, other | it in items && other in items && SiteFragmentName(it.site) == SiteFragmentName(other.site)
      ensures it.site == other.site
    {
      NamesAreDistinct(it.site, other.site);
    }
  }
}
