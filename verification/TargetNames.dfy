// Giving monitoring targets distinct names when names were introduced.
module TargetNames {
  import opened Strings

  const MAX_NAME_LENGTH: nat := 64

  // No more names than the sequence counter, a signed 64-bit word, can number.
  const MAX_NAMES: nat := 0x7FFF_FFFF_FFFF_FFFF - 2

  // ---------- numbers in names ----------

  function Power(k: nat): nat {
    if k == 0 then 1 else 10 * Power(k - 1)
  }

  lemma {:induction false} DecimalIsShort(n: nat, k: nat)
    requires k > 0 && n < Power(k)
    ensures |Decimal(n)| <= k
  {
    if n >= 10 {
      DecimalIsShort(n / 10, k - 1);
    }
  }

  // ---------- candidates ----------

  function Suffix(sequence: nat): string {
    " (" + Decimal(sequence) + ")"
  }

  lemma SuffixIsShort(sequence: nat)
    requires sequence <= MAX_NAMES + 2
    ensures |Suffix(sequence)| <= 22
  {
    assert Power(19) == 10_000_000_000_000_000_000 by {
      assert Power(5) == 100_000;
      assert Power(10) == 10_000_000_000;
      assert Power(15) == 1_000_000_000_000_000;
    }
    DecimalIsShort(sequence, 19);
  }

  // The first is the name itself, the later ones are numbered from 2.
  function Candidate(base: string, sequence: nat): (c: string)
    requires 1 <= sequence <= MAX_NAMES + 2
    ensures |c| <= MAX_NAME_LENGTH
  {
    if sequence == 1 then base[..Min(|base|, MAX_NAME_LENGTH)]
    else
      SuffixIsShort(sequence);
      base[..Min(|base|, MAX_NAME_LENGTH - |Suffix(sequence)|)] + Suffix(sequence)
  }

  function Min(a: nat, b: nat): nat {
    if a < b then a else b
  }

  // Changing the case of a text, character by character.
  function Folded(s: string, fold: char -> char): (f: string)
    ensures |f| == |s| && forall i :: 0 <= i < |s| ==> f[i] == fold(s[i])
  {
    seq(|s|, i requires 0 <= i < |s| => fold(s[i]))
  }

  // Numbers and brackets have no case, and folding undoes ASCII case.
  ghost predicate IsFold(fold: char -> char) {
    && (forall c :: c in {' ', '(', ')'} || '0' <= c <= '9' ==> fold(c) == c)
    && forall c :: fold(LowerChar(c)) == fold(c)
  }

  lemma {:induction false} DecimalHasNoCase(n: nat, fold: char -> char)
    requires IsFold(fold)
    ensures Folded(Decimal(n), fold) == Decimal(n)
  {
    if n >= 10 {
      DecimalHasNoCase(n / 10, fold);
    }
  }

  // Numbered candidates differ whatever the case.
  lemma CandidatesDiffer(base: string, n: nat, m: nat, fold: char -> char)
    requires IsFold(fold) && 2 <= n <= MAX_NAMES + 2 && 2 <= m <= MAX_NAMES + 2
    requires Folded(Candidate(base, n), fold) == Folded(Candidate(base, m), fold)
    ensures n == m
  {
    var p, x := FoldedCandidate(base, n, fold);
    var q, y := FoldedCandidate(base, m, fold);
    SplitAtLast('(', p, x, q, y);
    assert x[..|x| - 1] == Decimal(n) && y[..|y| - 1] == Decimal(m);
    DecimalIsInjective(n, m);
  }

  lemma FoldedCandidate(base: string, n: nat, fold: char -> char) returns (prefix: string, rest: string)
    requires IsFold(fold) && 2 <= n <= MAX_NAMES + 2
    ensures Folded(Candidate(base, n), fold) == prefix + ['('] + rest
    ensures rest == Decimal(n) + ")" && '(' !in rest
  {
    SuffixIsShort(n);
    DecimalHasNoCase(n, fold);
    var kept := base[..Min(|base|, MAX_NAME_LENGTH - |Suffix(n)|)];
    prefix, rest := Folded(kept, fold) + " ", Decimal(n) + ")";
    var whole := Folded(Candidate(base, n), fold);
    assert Candidate(base, n) == kept + " (" + Decimal(n) + ")";
    forall i | 0 <= i < |whole|
      ensures whole[i] == (prefix + ['('] + rest)[i]
    {
      var j := i - |kept| - 2;
      if 0 <= j < |Decimal(n)| {
        assert Candidate(base, n)[i] == Decimal(n)[j];
        assert Folded(Decimal(n), fold)[j] == Decimal(n)[j];
      }
    }
  }

  // ---------- choosing ----------

  // How many of the numbered candidates have been found used.
  lemma {:induction false} TriedCount(base: string, n: nat, fold: char -> char)
    requires IsFold(fold) && 1 <= n <= MAX_NAMES + 2
    ensures |Tried(base, n, fold)| == n - 1
  {
    if n > 1 {
      TriedCount(base, n - 1, fold);
      if Folded(Candidate(base, n), fold) in Tried(base, n - 1, fold) {
        var m := TriedIsCandidate(base, n - 1, fold, Folded(Candidate(base, n), fold));
        CandidatesDiffer(base, n, m, fold);
      }
    }
  }

  function Tried(base: string, n: nat, fold: char -> char): set<string>
    requires 1 <= n <= MAX_NAMES + 2
  {
    if n == 1 then {} else Tried(base, n - 1, fold) + {Folded(Candidate(base, n), fold)}
  }

  lemma {:induction false} TriedIsCandidate(base: string, n: nat, fold: char -> char, s: string) returns (m: nat)
    requires 1 <= n <= MAX_NAMES + 2 && s in Tried(base, n, fold)
    ensures 2 <= m <= n && s == Folded(Candidate(base, m), fold)
  {
    if s == Folded(Candidate(base, n), fold) {
      m := n;
    } else {
      m := TriedIsCandidate(base, n - 1, fold, s);
    }
  }

  lemma SubsetIsSmaller<T>(a: set<T>, b: set<T>)
    requires a <= b
    ensures |a| <= |b|
  {
    assert b == a + (b - a);
  }

  // All candidates before this one are used.
  ghost predicate IsSearched(base: string, used: set<string>, fold: char -> char, next: nat) {
    && 1 <= next <= |used| + 2 <= MAX_NAMES + 2
    && Tried(base, if next == 1 then 1 else next - 1, fold) <= used
    && forall i :: 1 <= i < next ==> IsUsed(base, i, used, fold)
  }

  predicate IsUsed(base: string, i: nat, used: set<string>, fold: char -> char)
    requires 1 <= i <= MAX_NAMES + 2
  {
    Folded(Candidate(base, i), fold) in used
  }

  lemma SearchGoesOn(base: string, used: set<string>, fold: char -> char, next: nat)
    requires IsFold(fold) && IsSearched(base, used, fold, next) && IsUsed(base, next, used, fold)
    ensures IsSearched(base, used, fold, next + 1)
  {
    assert Tried(base, next, fold) <= used;
    TriedCount(base, next, fold);
    SubsetIsSmaller(Tried(base, next, fold), used);
  }

  method NumberedName(base: string, sequence: nat) returns (name: string)
    requires 2 <= sequence <= MAX_NAMES + 2
    ensures name == Candidate(base, sequence)
  {
    SuffixIsShort(sequence);
    var suffix := Suffix(sequence);
    var prefixLength := Min(|base|, MAX_NAME_LENGTH - |suffix|);
    name := base[..prefixLength] + suffix;
  }

  // The search ends, with the first candidate that is free.
  method UniqueName(base: string, used: set<string>, fold: char -> char) returns (name: string, ghost sequence: nat)
    requires IsFold(fold) && |used| <= MAX_NAMES
    ensures 1 <= sequence <= |used| + 2 && name == Candidate(base, sequence)
    ensures |name| <= MAX_NAME_LENGTH && Folded(name, fold) !in used
    ensures forall i :: 1 <= i < sequence ==> IsUsed(base, i, used, fold)
  {
    var next: nat := 1;
    name := base[..Min(|base|, MAX_NAME_LENGTH)];
    while Folded(name, fold) in used
      invariant IsSearched(base, used, fold, next) && name == Candidate(base, next)
      decreases |used| + 3 - next
    {
      SearchGoesOn(base, used, fold, next);
      next := next + 1;
      name := NumberedName(base, next);
    }
    sequence := next;
  }

  datatype Row = Row(id: string, name: string, address: string)

  function BaseName(r: Row): string {
    if TrimSpace(r.name) == "" then r.address else TrimSpace(r.name)
  }

  function BaseNames(rows: seq<Row>): (bases: seq<string>)
    ensures |bases| == |rows|
  {
    seq(|rows|, i requires 0 <= i < |rows| => BaseName(rows[i]))
  }

  predicate IsTaken(names: seq<string>, n: nat, name: string, fold: char -> char)
    requires n <= |names|
  {
    exists j :: 0 <= j < n && Folded(names[j], fold) == Folded(name, fold)
  }

  function FoldedNames(names: seq<string>, fold: char -> char): set<string> {
    set name | name in names :: Folded(name, fold)
  }

  // In the order of the rows every name becomes one that no earlier row has;
  // a short one that no earlier row has taken is kept.
  predicate AreMigrated(bases: seq<string>, names: seq<string>, fold: char -> char) {
    |names| <= |bases| && forall i :: 0 <= i < |names| ==> IsRowMigrated(bases, names, i, fold)
  }

  predicate IsRowMigrated(bases: seq<string>, names: seq<string>, i: nat, fold: char -> char)
    requires i < |names| <= |bases|
  {
    && |names[i]| <= MAX_NAME_LENGTH && !IsTaken(names, i, names[i], fold)
    && (|bases[i]| <= MAX_NAME_LENGTH && !IsTaken(names, i, bases[i], fold) ==> names[i] == bases[i])
  }

  ghost predicate IsMigrated(bases: seq<string>, names: seq<string>, used: set<string>, fold: char -> char) {
    AreMigrated(bases, names, fold) && used == FoldedNames(names, fold) && |used| <= |names|
  }

  method MigrateNames(rows: seq<Row>, fold: char -> char) returns (names: seq<string>)
    requires IsFold(fold) && |rows| <= MAX_NAMES
    ensures |names| == |rows| && AreMigrated(BaseNames(rows), names, fold)
  {
    var bases := BaseNames(rows);
    names := [];
    var used: set<string> := {};
    for i := 0 to |bases|
      invariant |names| == i && IsMigrated(bases, names, used, fold)
    {
      ghost var sequence;
      var name;
      name, sequence := UniqueName(bases[i], used, fold);
      FirstIsUsed(bases[i], used, fold, sequence);
      MigratedNext(bases, names, used, name, sequence, fold);
      names, used := names + [name], used + {Folded(name, fold)};
    }
  }

  lemma FirstIsUsed(base: string, used: set<string>, fold: char -> char, sequence: nat)
    requires sequence <= MAX_NAMES + 2 && forall i :: 1 <= i < sequence ==> IsUsed(base, i, used, fold)
    ensures sequence > 1 ==> Folded(Candidate(base, 1), fold) in used
  {
    assert sequence > 1 ==> IsUsed(base, 1, used, fold);
  }

  // One more row gets its own name if that is short and free, or another one.
  lemma MigratedNext(bases: seq<string>, names: seq<string>, used: set<string>, name: string, sequence: nat,
                     fold: char -> char)
    requires |names| < |bases| && IsMigrated(bases, names, used, fold)
    requires 1 <= sequence <= MAX_NAMES + 2 && name == Candidate(bases[|names|], sequence) && Folded(name, fold) !in used
    requires sequence > 1 ==> Folded(Candidate(bases[|names|], 1), fold) in used
    ensures IsMigrated(bases, names + [name], used + {Folded(name, fold)}, fold)
  {
    var base := bases[|names|];
    assert |base| <= MAX_NAME_LENGTH ==> Candidate(base, 1) == base;
    OneMoreName(bases, names, used, name, fold);
  }

  lemma OneMoreName(bases: seq<string>, names: seq<string>, used: set<string>, name: string, fold: char -> char)
    requires |names| < |bases| && IsMigrated(bases, names, used, fold)
    requires |name| <= MAX_NAME_LENGTH && Folded(name, fold) !in used
    requires |bases[|names|]| <= MAX_NAME_LENGTH ==>
      name == bases[|names|] || Folded(bases[|names|], fold) in used
    ensures IsMigrated(bases, names + [name], used + {Folded(name, fold)}, fold)
  {
    FoldedOneMore(names, name, fold);
    NewRow(bases, names, used, name, fold);
    forall i | 0 <= i < |names|
      ensures IsRowMigrated(bases, names + [name], i, fold)
    {
      RowStays(bases, names, name, i, fold);
    }
  }

  lemma RowStays(bases: seq<string>, names: seq<string>, name: string, i: nat, fold: char -> char)
    requires i < |names| < |bases| && IsRowMigrated(bases, names, i, fold)
    ensures IsRowMigrated(bases, names + [name], i, fold)
  {
    TakenStays(names, name, i, names[i], fold);
    TakenStays(names, name, i, bases[i], fold);
  }

  lemma NewRow(bases: seq<string>, names: seq<string>, used: set<string>, name: string, fold: char -> char)
    requires |names| < |bases| && used == FoldedNames(names, fold)
    requires |name| <= MAX_NAME_LENGTH && Folded(name, fold) !in used
    requires |bases[|names|]| <= MAX_NAME_LENGTH ==>
      name == bases[|names|] || Folded(bases[|names|], fold) in used
    ensures IsRowMigrated(bases, names + [name], |names|, fold)
  {
    TakenIsUsed(names, name, used, name, fold);
    TakenIsUsed(names, name, used, bases[|names|], fold);
  }

  lemma FoldedOneMore(names: seq<string>, name: string, fold: char -> char)
    ensures FoldedNames(names + [name], fold) == FoldedNames(names, fold) + {Folded(name, fold)}
  {
    assert forall x :: x in names + [name] <==> x in names || x == name;
  }

  lemma TakenStays(names: seq<string>, name: string, i: nat, other: string, fold: char -> char)
    requires i <= |names|
    ensures IsTaken(names + [name], i, other, fold) == IsTaken(names, i, other, fold)
  {
    assert forall j :: 0 <= j < i ==> (names + [name])[j] == names[j];
  }

  lemma TakenIsUsed(names: seq<string>, name: string, used: set<string>, other: string, fold: char -> char)
    requires used == FoldedNames(names, fold)
    ensures IsTaken(names + [name], |names|, other, fold) <==> Folded(other, fold) in used
  {
    TakenStays(names, name, |names|, other, fold);
    if Folded(other, fold) in used {
      var x :| x in names && Folded(x, fold) == Folded(other, fold);
      var j :| 0 <= j < |names| && names[j] == x;
    }
  }

  // Names that differ when folded differ for the index on names too, which
  // ignores ASCII case only.
  lemma SameWithoutCase(a: string, b: string, fold: char -> char)
    requires IsFold(fold) && Lower(a) == Lower(b)
    ensures Folded(a, fold) == Folded(b, fold)
  {
    forall i | 0 <= i < |a|
      ensures fold(a[i]) == fold(b[i])
    {
      assert LowerChar(a[i]) == Lower(a)[i] == Lower(b)[i] == LowerChar(b[i]);
    }
  }
}
