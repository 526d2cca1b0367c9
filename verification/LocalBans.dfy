// Bans of addresses on an edge node: a saved list, the merge with the bans of
// the control plane, and the firewall that has to follow.
module LocalBans {
  import opened Options

  type Address = nat

  type Time = int

  datatype Ban = Ban(ip: Address, expires: Time, updated: Time, pending: bool)

  datatype RemoteBan = RemoteBan(ip: Address, isPublic: bool, expires: Time)

  datatype Event = Event(ip: Address, isBan: bool, seconds: nat)

  type BanMap = map<Address, Ban>

  const LOCAL_BAN_LIMIT: nat := 50000
  const SECOND: Time := 1_000_000_000

  // What the firewall is told of a ban.
  function Pairs(bans: seq<Ban>): set<(Address, Time)> {
    set b | b in bans :: (b.ip, b.expires)
  }

  function Settings(bans: seq<Ban>): set<(Address, Time, bool)> {
    set b | b in bans :: (b.ip, b.expires, b.pending)
  }

  function Unexpired(pairs: set<(Address, Time)>, now: Time): set<(Address, Time)> {
    set p | p in pairs && p.1 > now
  }

  predicate KeyedByAddress(m: BanMap) {
    forall ip :: ip in m ==> m[ip].ip == ip
  }

  predicate Ascend(s: seq<Ban>, i: nat, j: nat)
    requires i < j < |s|
  {
    s[i].ip < s[j].ip
  }

  // The bans of `m`, in order of their addresses.
  predicate Lists(s: seq<Ban>, m: BanMap) {
    && (forall i, j :: 0 <= i < j < |s| ==> Ascend(s, i, j))
    && (forall b :: b in s ==> b.ip in m && m[b.ip] == b)
    && (forall ip :: ip in m ==> m[ip] in s)
  }

  lemma AscendsOn(s: seq<Ban>, b: Ban)
    requires forall i, j :: 0 <= i < j < |s| ==> Ascend(s, i, j)
    requires forall x :: x in s ==> x.ip < b.ip
    ensures forall i, j :: 0 <= i < j < |s + [b]| ==> Ascend(s + [b], i, j)
  {
    forall i, j | 0 <= i < j < |s + [b]|
      ensures Ascend(s + [b], i, j)
    {
      assert j < |s| ==> Ascend(s, i, j);
      assert s[i] in s;
    }
  }

  method MapValues(m: BanMap) returns (s: seq<Ban>)
    requires KeyedByAddress(m)
    ensures Lists(s, m)
  {
    s := [];
    var rest := m.Keys;
    while rest != {}
      invariant rest <= m.Keys
      invariant forall i, j :: 0 <= i < j < |s| ==> Ascend(s, i, j)
      invariant forall b :: b in s ==> b.ip in m && b.ip !in rest && m[b.ip] == b && forall ip :: ip in rest ==> b.ip < ip
      invariant forall ip :: ip in m && ip !in rest ==> m[ip] in s
    {
      var ip := Least(rest);
      AscendsOn(s, m[ip]);
      s := s + [m[ip]];
      rest := rest - {ip};
    }
  }

  method Least(s: set<Address>) returns (least: Address)
    requires s != {}
    ensures least in s && forall ip :: ip in s ==> least <= ip
  {
    least :| least in s;
    var rest := s - {least};
    while rest != {}
      invariant rest < s && least in s && forall ip :: ip in s && ip !in rest ==> least <= ip
    {
      var ip :| ip in rest;
      if ip < least {
        least := ip;
      }
      rest := rest - {ip};
    }
  }

  // ---------- the limit ----------

  // Bans that last longer come first, then those updated later.
  predicate Precedes(a: Ban, b: Ban) {
    a.expires > b.expires || (a.expires == b.expires && (a.updated > b.updated || (a.updated == b.updated && a.ip < b.ip)))
  }

  // The first `limit` bans of `all`.
  ghost predicate IsLimited(all: BanMap, kept: BanMap, limit: nat) {
    && (forall ip :: ip in kept ==> ip in all && kept[ip] == all[ip])
    && |kept| == (if |all| <= limit then |all| else limit)
    && (forall ip, other {:trigger Precedes(all[ip], all[other])} ::
          ip in kept && other in all && other !in kept ==> Precedes(all[ip], all[other]))
  }

  method Last(m: BanMap) returns (last: Address)
    requires m != map[] && KeyedByAddress(m)
    ensures last in m && forall ip :: ip in m && ip != last ==> Precedes(m[ip], m[last])
  {
    last :| last in m;
    var rest := m.Keys - {last};
    while rest != {}
      invariant rest <= m.Keys && last in m && last !in rest
      invariant forall ip :: ip in m && ip !in rest && ip != last ==> Precedes(m[ip], m[last])
    {
      var ip :| ip in rest;
      rest := rest - {ip};
      if Precedes(m[last], m[ip]) {
        last := ip;
      }
    }
  }

  method Limit(all: BanMap) returns (kept: BanMap)
    requires KeyedByAddress(all)
    ensures IsLimited(all, kept, LOCAL_BAN_LIMIT) && KeyedByAddress(kept)
  {
    kept := all;
    while |kept| > LOCAL_BAN_LIMIT
      invariant KeyedByAddress(kept)
      invariant forall ip :: ip in kept ==> ip in all && kept[ip] == all[ip]
      invariant |kept| <= |all| && (|kept| == |all| || |kept| >= LOCAL_BAN_LIMIT)
      invariant |kept| == |all| ==> kept == all
      invariant forall ip, other :: ip in kept && other in all && other !in kept ==> Precedes(all[ip], all[other])
    {
      var last := Last(kept);
      assert |kept - {last}| == |kept| - 1 by {
        assert (kept - {last}).Keys == kept.Keys - {last};
      }
      kept := kept - {last};
    }
  }

  // ---------- recording bans of this node ----------

  function Max(a: Time, b: Time): Time {
    if a > b then a else b
  }

  // The latest expiry that the saved bans and the first `n` events give.
  function Latest(saved: Option<Time>, events: seq<Event>, n: nat, ip: Address, now: Time): Option<Time>
    requires n <= |events|
  {
    if n == 0 then saved
    else
      var before := Latest(saved, events, n - 1, ip, now);
      var e := events[n - 1];
      if !e.isBan || e.ip != ip then before
      else if before == None then Some(now + e.seconds * SECOND)
      else Some(Max(before.value, now + e.seconds * SECOND))
  }

  // It is no less than any of them, and is one of them.
  lemma {:induction false} LatestIsMaximum(saved: Option<Time>, events: seq<Event>, n: nat, ip: Address, now: Time)
    requires n <= |events|
    ensures saved.Some? ==>
      Latest(saved, events, n, ip, now).Some? && Latest(saved, events, n, ip, now).value >= saved.value
    ensures forall i :: 0 <= i < n && events[i].isBan && events[i].ip == ip ==>
      Latest(saved, events, n, ip, now).Some? && Latest(saved, events, n, ip, now).value >= now + events[i].seconds * SECOND
    ensures Latest(saved, events, n, ip, now).Some? ==>
      || Latest(saved, events, n, ip, now) == saved
      || exists i :: 0 <= i < n && events[i].isBan && events[i].ip == ip
           && Latest(saved, events, n, ip, now).value == now + events[i].seconds * SECOND
  {
    if n > 0 {
      LatestIsMaximum(saved, events, n - 1, ip, now);
    }
  }

  function ExpiryOf(m: BanMap, ip: Address): Option<Time> {
    if ip in m then Some(m[ip].expires) else None
  }

  method ActiveByAddress(bans: seq<Ban>, now: Time) returns (m: BanMap)
    ensures KeyedByAddress(m)
    ensures forall ip :: ip in m ==> m[ip] in bans && m[ip].expires > now
    ensures forall b :: b in bans && b.expires > now ==> b.ip in m
  {
    m := map[];
    for i := 0 to |bans|
      invariant KeyedByAddress(m)
      invariant forall ip :: ip in m ==> m[ip] in bans && m[ip].expires > now
      invariant forall b :: b in bans[..i] && b.expires > now ==> b.ip in m
    {
      if bans[i].expires > now {
        m := m[bans[i].ip := bans[i]];
      }
    }
  }

  method AddEvents(active: BanMap, events: seq<Event>, now: Time) returns (m: BanMap)
    requires KeyedByAddress(active)
    ensures KeyedByAddress(m)
    ensures forall ip :: ExpiryOf(m, ip) == Latest(ExpiryOf(active, ip), events, |events|, ip, now)
    ensures forall ip :: ip in m && (exists e :: e in events && e.isBan && e.ip == ip) ==> m[ip].pending
    ensures forall ip :: ip in active && !(exists e :: e in events && e.isBan && e.ip == ip) ==>
      ip in m && m[ip] == active[ip]
  {
    m := active;
    for i := 0 to |events|
      invariant KeyedByAddress(m)
      invariant forall ip :: ExpiryOf(m, ip) == Latest(ExpiryOf(active, ip), events, i, ip, now)
      invariant forall ip :: ip in m && (exists e :: e in events[..i] && e.isBan && e.ip == ip) ==> m[ip].pending
      invariant forall ip :: ip in active && !(exists e :: e in events[..i] && e.isBan && e.ip == ip) ==>
        ip in m && m[ip] == active[ip]
    {
      var e := events[i];
      assert forall x :: x in events[..i + 1] <==> x in events[..i] || x == e;
      if e.isBan {
        var expires := now + e.seconds * SECOND;
        if e.ip in m && m[e.ip].expires > expires {
          expires := m[e.ip].expires;
        }
        m := m[e.ip := Ban(e.ip, expires, now, true)];
      }
    }
    assert events[..|events|] == events;
  }

  // ---------- merging with the control plane ----------

  // Of several remote bans of an address the last one that holds counts.
  function RemoteExpiry(remote: seq<RemoteBan>, n: nat, ip: Address, now: Time): Option<Time>
    requires n <= |remote|
  {
    if n == 0 then None
    else
      var r := remote[n - 1];
      if r.isPublic && r.ip == ip && r.expires > now then Some(r.expires) else RemoteExpiry(remote, n - 1, ip, now)
  }

  // Bans that the control plane has not taken in yet override its own.
  ghost predicate IsMerged(remote: seq<RemoteBan>, previous: BanMap, now: Time, m: BanMap) {
    forall ip ::
      if ip in previous && previous[ip].pending then ip in m && m[ip] == previous[ip]
      else match RemoteExpiry(remote, |remote|, ip, now)
           case Some(expires) => ip in m && m[ip] == Ban(ip, expires, 0, false)
           case None => ip !in m
  }

  method Merge(remote: seq<RemoteBan>, previous: seq<Ban>, ghost all: BanMap, now: Time) returns (m: BanMap)
    requires Lists(previous, all) && KeyedByAddress(all)
    ensures KeyedByAddress(m) && IsMerged(remote, all, now, m)
  {
    m := map[];
    for i := 0 to |remote|
      invariant KeyedByAddress(m)
      invariant forall ip ::
        match RemoteExpiry(remote, i, ip, now)
        case Some(expires) => ip in m && m[ip] == Ban(ip, expires, 0, false)
        case None => ip !in m
    {
      var r := remote[i];
      if r.isPublic && r.expires > now {
        m := m[r.ip := Ban(r.ip, r.expires, 0, false)];
      }
    }
    for i := 0 to |previous|
      invariant KeyedByAddress(m)
      invariant forall ip ::
        if ip in all && all[ip].pending && all[ip] in previous[..i] then ip in m && m[ip] == all[ip]
        else match RemoteExpiry(remote, |remote|, ip, now)
             case Some(expires) => ip in m && m[ip] == Ban(ip, expires, 0, false)
             case None => ip !in m
    {
      var b := previous[i];
      assert forall x :: x in previous[..i + 1] <==> x in previous[..i] || x == b;
      if b.pending {
        m := m[b.ip := b];
      }
    }
    assert previous[..|previous|] == previous;
  }

  lemma {:induction false} RemoteIsUnexpired(remote: seq<RemoteBan>, n: nat, ip: Address, now: Time)
    requires n <= |remote|
    ensures RemoteExpiry(remote, n, ip, now).Some? ==> RemoteExpiry(remote, n, ip, now).value > now
  {
    if n > 0 {
      RemoteIsUnexpired(remote, n - 1, ip, now);
    }
  }

  // Nothing that is merged has expired.
  lemma MergedIsUnexpired(remote: seq<RemoteBan>, previous: BanMap, now: Time, m: BanMap)
    requires IsMerged(remote, previous, now, m) && forall ip :: ip in previous ==> previous[ip].expires > now
    ensures forall ip :: ip in m ==> m[ip].expires > now
  {
    forall ip | ip in m
      ensures m[ip].expires > now
    {
      RemoteIsUnexpired(remote, |remote|, ip, now);
    }
  }

  predicate Equivalent(left: seq<Ban>, right: seq<Ban>) {
    |left| == |right| && forall i :: 0 <= i < |left| ==>
      left[i].ip == right[i].ip && left[i].pending == right[i].pending && left[i].expires == right[i].expires
  }

  lemma {:induction false} EquivalentHaveSettings(left: seq<Ban>, right: seq<Ban>)
    requires Equivalent(left, right)
    ensures Settings(left) == Settings(right) && Pairs(left) == Pairs(right)
  {
    SettingsWithin(left, right);
    SettingsWithin(right, left);
  }

  lemma SettingsWithin(left: seq<Ban>, right: seq<Ban>)
    requires Equivalent(left, right)
    ensures Settings(left) <= Settings(right) && Pairs(left) <= Pairs(right)
  {
    forall b | b in left
      ensures (b.ip, b.expires, b.pending) in Settings(right) && (b.ip, b.expires) in Pairs(right)
    {
      var i :| 0 <= i < |left| && b == left[i];
      assert right[i] in right;
    }
  }

  predicate Differ(s: seq<Ban>, i: nat, j: nat)
    requires i < j < |s|
  {
    s[i].ip != s[j].ip
  }

  predicate DistinctAddresses(s: seq<Ban>) {
    forall i, j :: 0 <= i < j < |s| ==> Differ(s, i, j)
  }

  function Elements(s: seq<Ban>): set<Ban> {
    set b | b in s
  }

  lemma {:induction false} DistinctCount(s: seq<Ban>)
    requires DistinctAddresses(s)
    ensures |Elements(s)| == |s|
  {
    if s != [] {
      var init, last := s[..|s| - 1], s[|s| - 1];
      assert forall i, j :: 0 <= i < j < |init| ==> (Differ(s, i, j) <==> Differ(init, i, j));
      forall i | 0 <= i < |init|
        ensures init[i] != last
      {
        assert Differ(s, i, |s| - 1);
      }
      DistinctCount(init);
      assert s == init + [last];
      assert last !in init;
      assert Elements(s) == Elements(init) + {last};
    }
  }

  // As many bans as were saved means that none was expired or cut off.
  lemma NoneDropped(saved: seq<Ban>, previous: seq<Ban>)
    requires DistinctAddresses(saved) && DistinctAddresses(previous)
    requires |saved| == |previous| && forall b :: b in previous ==> b in saved
    ensures Settings(saved) == Settings(previous) && Pairs(saved) == Pairs(previous)
  {
    DistinctCount(saved);
    DistinctCount(previous);
    assert Elements(previous) <= Elements(saved);
    SameCount(Elements(previous), Elements(saved));
    assert forall b :: b in saved <==> b in Elements(saved);
    assert forall b :: b in previous <==> b in Elements(previous);
  }

  lemma SameCount<T>(a: set<T>, b: set<T>)
    requires a <= b && |a| == |b|
    ensures a == b
  {
    assert b == a + (b - a) && |b| == |a| + |b - a|;
  }
}
