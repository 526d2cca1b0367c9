// Text as a sequence of characters.
module Strings {
  predicate IsSpace(c: char) {
    c in {' ', '\t', '\n', '\r', 0x0B as char, 0x0C as char}
  }

  function TrimLeft(s: string): string {
    if s != "" && IsSpace(s[0]) then TrimLeft(s[1..]) else s
  }

  function TrimRight(s: string): string {
    if s != "" && IsSpace(s[|s| - 1]) then TrimRight(s[..|s| - 1]) else s
  }

  function TrimSpace(s: string): string {
    TrimRight(TrimLeft(s))
  }

  lemma TrimNothing(s: string)
    requires s != "" && !IsSpace(s[0]) && !IsSpace(s[|s| - 1])
    ensures TrimSpace(s) == s
  {
  }

  function LowerChar(c: char): char {
    if 'A' <= c <= 'Z' then c - 'A' + 'a' else c
  }

  function Lower(s: string): (l: string)
    ensures |l| == |s| && forall i :: 0 <= i < |s| ==> l[i] == LowerChar(s[i])
  {
    seq(|s|, i requires 0 <= i < |s| => LowerChar(s[i]))
  }

  // A separator that one part of either text lacks splits equal texts alike.
  lemma {:induction false} SplitAtFirst(separator: char, a: string, x: string, b: string, y: string)
    requires separator !in a && separator !in b && a + [separator] + x == b + [separator] + y
    ensures a == b && x == y
    decreases |a|
  {
    var s, t := a + [separator] + x, b + [separator] + y;
    assert s[0] == if a == "" then separator else a[0];
    assert t[0] == if b == "" then separator else b[0];
    assert s[1..] == t[1..];
    if a == "" {
      assert b == "";
      assert s[1..] == x && t[1..] == y;
    } else {
      assert b != "";
      assert s[1..] == a[1..] + [separator] + x && t[1..] == b[1..] + [separator] + y;
      SplitAtFirst(separator, a[1..], x, b[1..], y);
    }
  }

  lemma {:induction false} SplitAtLast(separator: char, a: string, x: string, b: string, y: string)
    requires separator !in x && separator !in y && a + [separator] + x == b + [separator] + y
    ensures a == b && x == y
    decreases |x|
  {
    var s, t := a + [separator] + x, b + [separator] + y;
    var n := |s| - 1;
    assert s[n] == if x == "" then separator else x[|x| - 1];
    assert t[n] == if y == "" then separator else y[|y| - 1];
    assert s[..n] == t[..n];
    if x == "" {
      assert y == "";
      assert s[..n] == a && t[..n] == b;
    } else {
      assert y != "";
      assert s[..n] == a + [separator] + x[..|x| - 1] && t[..n] == b + [separator] + y[..|y| - 1];
      SplitAtLast(separator, a, x[..|x| - 1], b, y[..|y| - 1]);
    }
  }

  function Digit(n: nat): char
    requires n < 10
  {
    '0' + n as char
  }

  function Decimal(n: nat): (s: string)
    ensures s != "" && forall c :: c in s ==> '0' <= c <= '9'
  {
    if n < 10 then [Digit(n)] else Decimal(n / 10) + [Digit(n % 10)]
  }

  lemma {:induction false} DecimalIsInjective(n: nat, m: nat)
    requires Decimal(n) == Decimal(m)
    ensures n == m
  {
    var s, t := Decimal(n), Decimal(m);
    assert s[|s| - 1] == Digit(n % 10) && t[|t| - 1] == Digit(m % 10);
    assert n % 10 == m % 10;
    assert (n < 10 <==> |s| == 1) && (m < 10 <==> |t| == 1);
    if n >= 10 {
      assert s[..|s| - 1] == Decimal(n / 10) && t[..|t| - 1] == Decimal(m / 10);
      DecimalIsInjective(n / 10, m / 10);
    }
  }

  // What the name of a file of fragments may hold.
  predicate IsNameChar(c: char) {
    'a' <= c <= 'z' || 'A' <= c <= 'Z' || '0' <= c <= '9' || c == '-' || c == '_' || c == '.'
  }
}
