// DNS records of a zone and what makes one of them managed.
module DnsRecords {
  import opened Strings

  datatype Record = Record(kind: string, name: string, content: string, comment: string, ttl: int, proxied: bool)

  const MANAGED_PREFIX := "cdn-platform:"

  function TrimDot(s: string): string {
    if s != "" && s[|s| - 1] == '.' then s[..|s| - 1] else s
  }

  function CanonicalName(name: string): string {
    Lower(TrimDot(TrimSpace(name)))
  }

  predicate IsA(r: Record) {
    r.kind in {"", "A", "a"}
  }

  predicate HasPrefix(s: string, prefix: string) {
    prefix <= s
  }

  function OwnerPrefix(owner: string): string {
    MANAGED_PREFIX + owner + ";"
  }

  predicate Owned(r: Record, owner: string) {
    IsA(r) && HasPrefix(r.comment, OwnerPrefix(owner))
  }

  const NUL: char := 0 as char

  function Key(r: Record): string {
    CanonicalName(r.name) + [NUL] + r.content + [NUL] + r.comment
  }

  // No field holds the separator of the keys.
  predicate Clean(r: Record) {
    NUL !in CanonicalName(r.name) && NUL !in r.content
  }

  lemma ThreeParts(a: string, x: string, p: string, b: string, y: string, q: string)
    requires NUL !in a && NUL !in b && NUL !in x && NUL !in y
    requires a + [NUL] + x + [NUL] + p == b + [NUL] + y + [NUL] + q
    ensures a == b && x == y && p == q
  {
    assert a + [NUL] + x + [NUL] + p == a + [NUL] + (x + [NUL] + p);
    assert b + [NUL] + y + [NUL] + q == b + [NUL] + (y + [NUL] + q);
    SplitAtFirst(NUL, a, x + [NUL] + p, b, y + [NUL] + q);
    SplitAtFirst(NUL, x, p, y, q);
  }

  // Keys tell records apart that differ in name, content or comment.
  lemma KeyIsInjective(r: Record, s: Record)
    requires Clean(r) && Clean(s) && Key(r) == Key(s)
    ensures CanonicalName(r.name) == CanonicalName(s.name) && r.content == s.content && r.comment == s.comment
  {
    ThreeParts(CanonicalName(r.name), r.content, r.comment, CanonicalName(s.name), s.content, s.comment);
  }

  // ";" ends the owner, so that one owner's records are never another's.
  lemma OwnerIsUnique(r: Record, owner: string, other: string)
    requires ';' !in owner && ';' !in other && Owned(r, owner) && Owned(r, other)
    ensures owner == other
  {
    var n := |MANAGED_PREFIX|;
    var rest := r.comment[n..];
    var x, y := rest[|owner| + 1..], rest[|other| + 1..];
    assert OwnerPrefix(owner)[n..] == owner + ";" && OwnerPrefix(other)[n..] == other + ";";
    assert rest == owner + [';'] + x;
    assert rest == other + [';'] + y;
    SplitAtFirst(';', owner, x, other, y);
  }
}
