// Keeping the firewall of an edge node in step with its saved bans.
module BanSync {
  import opened Options
  import opened LocalBans

  // The saved list already says what merging gives, and the firewall has
  // taken in what it was last told.
  predicate MaySkip(saved: seq<Ban>, previous: seq<Ban>, merged: seq<Ban>, dirty: bool) {
    |saved| == |previous| && Equivalent(previous, merged) && !dirty
  }

  predicate HasBan(events: seq<Event>) {
    exists e :: e in events && e.isBan
  }

  // What has not expired is the same in the saved bans and in the firewall.
  predicate InStep(saved: seq<Ban>, firewall: set<(Address, Time)>, now: Time) {
    Unexpired(firewall, now) == Unexpired(Pairs(saved), now)
  }

  class SecurityManager {
    // The state file and what the kernel holds.
    var saved: seq<Ban>
    var firewall: set<(Address, Time)>
    // The last replacement of the firewall has failed.
    var dirty: bool
    // Bans were saved, or the process started, and no replacement was tried since.
    ghost var lagging: bool
    ghost var clock: Time
    // How many operations have failed, and how many of them were writes of a
    // file or the reading of the saved bans by a process that starts.
    ghost var faults: nat
    ghost var fileFaults: nat

    // Unless one of the flags is up, the firewall holds the saved bans.
    ghost predicate Valid()
      reads this
    {
      && DistinctAddresses(saved)
      && (!dirty && !lagging ==> Followed())
    }

    ghost predicate Followed()
      reads this
    {
      InStep(saved, firewall, clock)
    }

    // A process that starts knows nothing of the firewall.
    constructor (saved: seq<Ban>, firewall: set<(Address, Time)>, ghost now: Time)
      requires DistinctAddresses(saved)
      ensures Valid() && this.saved == saved && this.firewall == firewall && !dirty && lagging && clock == now
      ensures faults == 0 && fileFaults == 0
    {
      this.saved, this.firewall, dirty, lagging, clock := saved, firewall, false, true, now;
      faults, fileFaults := 0, 0;
    }

    ghost method Tick(now: Time)
      requires Valid() && clock <= now
      modifies this`clock
      ensures Valid() && clock == now
    {
      LaterIsSame(firewall, Pairs(saved), clock, now);
      clock := now;
    }

    method Attempt() returns (ok: bool)
      modifies this`faults
      ensures faults == old(faults) + Failures(ok)
    {
      ok := *;
      if !ok {
        faults := faults + 1;
      }
    }

    method FileAttempt() returns (ok: bool)
      modifies this`faults, this`fileFaults
      ensures faults == old(faults) + Failures(ok)
      ensures fileFaults == old(fileFaults) + Failures(ok)
    {
      ok := Attempt();
      if !ok {
        fileFaults := fileFaults + 1;
      }
    }

    method Save(bans: seq<Ban>) returns (ok: bool)
      modifies this`saved, this`faults, this`fileFaults
      ensures faults == old(faults) + Failures(ok)
      ensures fileFaults == old(fileFaults) + Failures(ok)
      ensures saved == if ok then bans else old(saved)
    {
      ok := FileAttempt();
      if ok {
        saved := bans;
      }
    }

    // A replacement that fails may have happened all the same.
    method ReplaceFirewall(bans: seq<Ban>) returns (ok: bool)
      modifies this`firewall, this`dirty, this`lagging, this`faults
      ensures faults == old(faults) + Failures(ok)
      ensures firewall == Pairs(bans) || firewall == old(firewall)
      ensures dirty == !ok && !lagging
      ensures ok ==> firewall == Pairs(bans)
    {
      ok := Attempt();
      var reached: bool := *;
      if ok || reached {
        firewall := Pairs(bans);
      }
      dirty, lagging := !ok, false;
    }

    // Saves bans and tells the firewall of them.
    method Install(bans: seq<Ban>) returns (ok: bool)
      requires Valid() && DistinctAddresses(bans) && Unexpired(Pairs(bans), clock) == Pairs(bans)
      modifies this`saved, this`firewall, this`dirty, this`lagging, this`faults, this`fileFaults
      ensures Valid()
      ensures faults >= old(faults) + Failures(ok)
      ensures fileFaults >= old(fileFaults) && (lagging ==> old(lagging) && fileFaults > old(fileFaults))
      ensures ok ==> saved == bans && firewall == Pairs(bans) && !dirty && !lagging
    {
      ok := Save(bans);
      if !ok {
        return;
      }
      lagging := true;
      ok := ReplaceFirewall(bans);
    }

    method Initialize(now: Time) returns (ok: bool)
      requires Valid() && clock <= now
      modifies this
      ensures Valid() && clock == now
      ensures faults >= old(faults) + Failures(ok)
      ensures fileFaults >= old(fileFaults) && (lagging ==> fileFaults > old(fileFaults))
      ensures ok ==> firewall == Pairs(saved) && Unexpired(firewall, now) == Pairs(saved) && !dirty && !lagging
      ensures ok ==> IsTrimmed(old(saved), saved, now)
    {
      Tick(now);
      ok := FileAttempt();
      if !ok {
        return;
      }
      var bans := Trim(saved, now);
      ok := Install(bans);
    }

    // Saves the bans of some events. `merged` are the bans before the limit.
    method SaveBans(events: seq<Event>, now: Time)
      returns (ok: bool, bans: seq<Ban>, ghost active: BanMap, ghost merged: BanMap)
      requires Valid()
      modifies this`saved, this`lagging, this`faults, this`fileFaults
      ensures Valid()
      ensures faults >= old(faults) + Failures(ok)
      ensures fileFaults >= old(fileFaults)
      ensures !ok ==> saved == old(saved) && lagging == old(lagging)
      ensures ok ==> saved == bans && IsExtended(old(saved), events, now, active, merged) && AreFirst(bans, merged)
    {
      bans, active, merged := [], map[], map[];
      ok := Attempt();
      if !ok {
        return;
      }
      bans, active, merged := Extend(saved, events, now);
      ok := Save(bans);
      if ok {
        lagging := true;
      }
    }

    // The firewall is told of the bans that were just saved, or else of those
    // that are read back.
    method TellFirewall(haveBans: bool, bans: seq<Ban>, now: Time) returns (ok: bool)
      requires Valid() && clock == now && (haveBans ==> saved == bans)
      modifies this`firewall, this`dirty, this`lagging, this`faults
      ensures Valid()
      ensures faults >= old(faults) + Failures(ok)
      ensures ok ==> Followed() && !dirty && !lagging
      ensures lagging ==> old(lagging) && !haveBans
    {
      var told := bans;
      if !haveBans {
        ok := Attempt();
        if !ok {
          return;
        }
        told := ActiveBans(saved, now);
      }
      ok := ReplaceFirewall(told);
    }

    // Events of this node: bans are saved, then the log offset, then the
    // firewall is told.
    method CollectBans(events: seq<Event>, now: Time) returns (ok: bool, ghost active: BanMap, ghost merged: BanMap)
      requires Valid() && clock <= now
      modifies this
      ensures Valid() && clock == now
      ensures faults >= old(faults) + Failures(ok)
      ensures fileFaults >= old(fileFaults)
      // Only a failed write of the offset leaves the firewall behind.
      ensures lagging && !old(lagging) ==>
        && !ok && fileFaults > old(fileFaults) && HasBan(events) && firewall == old(firewall) && dirty == old(dirty)
        && IsExtended(old(saved), events, now, active, merged) && AreFirst(saved, merged)
      ensures !HasBan(events) ==> saved == old(saved) && (!old(dirty) ==> firewall == old(firewall))
      ensures ok && HasBan(events) ==> IsExtended(old(saved), events, now, active, merged) && AreFirst(saved, merged)
      ensures ok && (HasBan(events) || old(dirty)) ==> Followed() && !dirty && !lagging
    {
      Tick(now);
      active, merged := map[], map[];
      var bans := [];
      if HasBan(events) {
        ok, bans, active, merged := SaveBans(events, now);
        if !ok {
          return;
        }
      }
      ok := FileAttempt();
      if !ok {
        return;
      }
      if HasBan(events) || dirty {
        ok := TellFirewall(HasBan(events), bans, now);
      }
    }

    // The control plane has taken in the events of some addresses.
    method ClearPending(accepted: set<Address>) returns (ok: bool)
      requires Valid()
      modifies this`saved, this`faults, this`fileFaults
      ensures faults >= old(faults) + Failures(ok)
      ensures fileFaults >= old(fileFaults)
      ensures Valid() && Pairs(saved) == old(Pairs(saved))
      ensures ok ==> |saved| == |old(saved)| && forall i :: 0 <= i < |saved| ==>
        saved[i] == if old(saved)[i].ip in accepted then old(saved)[i].(pending := false) else old(saved)[i]
    {
      ok := Attempt();
      if !ok {
        return false;
      }
      var bans := saved;
      for i := 0 to |saved|
        invariant |bans| == |saved|
        invariant forall j :: 0 <= j < i ==>
          bans[j] == if saved[j].ip in accepted then saved[j].(pending := false) else saved[j]
        invariant forall j :: i <= j < |saved| ==> bans[j] == saved[j]
      {
        if bans[i].ip in accepted {
          bans := bans[i := bans[i].(pending := false)];
        }
      }
      SamePairs(saved, bans);
      assert forall i, j :: 0 <= i < j < |bans| ==> (Differ(saved, i, j) <==> Differ(bans, i, j));
      ok := Save(bans);
    }

    // Installs the merged bans, or skips that if they are there already.
    method Follow(previous: seq<Ban>, merged: seq<Ban>) returns (ok: bool)
      requires Valid() && DistinctAddresses(previous) && forall b :: b in previous ==> b in saved
      requires DistinctAddresses(merged) && Unexpired(Pairs(merged), clock) == Pairs(merged)
      modifies this`saved, this`firewall, this`dirty, this`lagging, this`faults, this`fileFaults
      ensures Valid()
      ensures faults >= old(faults) + Failures(ok)
      ensures fileFaults >= old(fileFaults) && (lagging ==> old(lagging))
      ensures ok ==> Settings(saved) == Settings(merged)
      ensures ok ==>
        (Unexpired(firewall, clock) == Pairs(merged) <==>
          !MaySkip(old(saved), previous, merged, old(dirty)) || old(Followed()))
      ensures ok && MaySkip(old(saved), previous, merged, old(dirty)) ==> saved == old(saved) && firewall == old(firewall)
    {
      if MaySkip(saved, previous, merged, dirty) {
        SkippedIsSynced(saved, previous, merged);
        return true;
      }
      ok := Install(merged);
    }

    // A synchronisation that succeeds leaves the merged bans in the firewall,
    // but for one that is skipped while the firewall was out of step.
    method SyncBans(remote: seq<RemoteBan>, now: Time)
      returns (ok: bool, ghost previous: seq<Ban>, ghost merged: seq<Ban>, ghost w: Merging)
      requires Valid() && clock <= now
      modifies this
      ensures Valid() && clock == now
      ensures faults >= old(faults) + Failures(ok)
      ensures fileFaults >= old(fileFaults) && (lagging ==> old(lagging))
      ensures ok ==> AreMerged(old(saved), remote, now, previous, merged, w)
      ensures ok ==> Settings(saved) == MapSettings(w.kept)
      ensures ok ==>
        (Unexpired(firewall, now) == MapPairs(w.kept) <==>
          !MaySkip(old(saved), previous, merged, old(dirty)) || InStep(old(saved), old(firewall), now))
      ensures ok && !old(lagging) ==> Unexpired(firewall, now) == MapPairs(w.kept)
      ensures ok && MaySkip(old(saved), previous, merged, old(dirty)) ==> saved == old(saved) && firewall == old(firewall)
    {
      Tick(now);
      previous, merged, w := [], [], Merging(map[], map[], map[], map[]);
      ok := Attempt();
      if ok {
        ok := Attempt();
      }
      if !ok {
        return;
      }
      var before, bans;
      before, bans, w := MergeSaved(saved, remote, now);
      previous, merged := before, bans;
      ok := Follow(before, bans);
    }

    // A new process: the firewall is as the last one left it.
    method Restart(now: Time) returns (ok: bool)
      requires Valid() && clock <= now
      modifies this
      ensures Valid() && clock == now
      ensures fileFaults >= old(fileFaults) && (lagging ==> fileFaults > old(fileFaults))
    {
      dirty, lagging := false, true;
      ok := Initialize(now);
    }

    method Happen(e: Happening, now: Time, ghost syncs: seq<Synced>) returns (ghost syncs': seq<Synced>)
      requires Valid() && clock <= now
      modifies this
      ensures Valid() && clock == now && fileFaults >= old(fileFaults)
      ensures fileFaults == old(fileFaults) && !old(lagging) ==> !lagging
      ensures fileFaults == old(fileFaults) && !old(lagging) && AllAgree(syncs) ==> AllAgree(syncs')
    {
      syncs' := syncs;
      match e {
        case Starts =>
          var ok := Restart(now);
        case Collects(events) =>
          var ok;
          ghost var active, merged;
          ok, active, merged := CollectBans(events, now);
        case Clears(accepted) =>
          Tick(now);
          var ok := ClearPending(accepted);
        case Syncs(remote) =>
          var ok;
          ghost var previous, merged, w;
          ok, previous, merged, w := SyncBans(remote, now);
          if ok {
            syncs' := syncs + [Synced(Unexpired(firewall, now), MapPairs(w.kept))];
          }
      }
    }
  }

  datatype Happening = Starts | Collects(events: seq<Event>) | Clears(accepted: set<Address>) | Syncs(remote: seq<RemoteBan>)

  datatype At = At(e: Happening, now: Time)

  // What the firewall held after a successful synchronisation, and what the
  // merged bans were.
  datatype Synced = Synced(held: set<(Address, Time)>, merged: set<(Address, Time)>)

  ghost predicate AllAgree(syncs: seq<Synced>) {
    forall s :: s in syncs ==> s.held == s.merged
  }

  // Over any run from a start on, with replacements of the firewall failing at
  // any time: as long as files can be written, the firewall holds the merged
  // bans after every synchronisation that succeeds, skipped or not.
  method Run(saved: seq<Ban>, firewall: set<(Address, Time)>, start: Time, steps: seq<At>)
    returns (m: SecurityManager, ghost syncs: seq<Synced>)
    requires DistinctAddresses(saved)
    requires forall i :: 0 <= i < |steps| ==> start <= steps[i].now
    requires forall i, j :: 0 <= i < j < |steps| ==> steps[i].now <= steps[j].now
    ensures fresh(m) && m.Valid()
    ensures m.fileFaults == 0 ==> AllAgree(syncs)
    // Between synchronisations too, unless a replacement is to be tried again.
    ensures m.fileFaults == 0 && !m.dirty ==> m.Followed()
  {
    m := new SecurityManager(saved, firewall, start);
    syncs := [];
    var ok := m.Initialize(start);
    for i := 0 to |steps|
      invariant fresh(m) && m.Valid() && m.clock == if i == 0 then start else steps[i - 1].now
      invariant m.fileFaults == 0 ==> !m.lagging && AllAgree(syncs)
    {
      syncs := m.Happen(steps[i].e, steps[i].now, syncs);
    }
  }

  // The list of the first bans of `all`.
  ghost predicate AreFirst(bans: seq<Ban>, all: BanMap) {
    exists kept :: IsLimited(all, kept, LOCAL_BAN_LIMIT) && Lists(bans, kept)
  }

  // The saved bans that have not expired, and with them those of the events.
  ghost predicate IsExtended(saved: seq<Ban>, events: seq<Event>, now: Time, active: BanMap, merged: BanMap) {
    && IsActive(saved, active, now)
    && (forall ip :: ExpiryOf(merged, ip) == Latest(ExpiryOf(active, ip), events, |events|, ip, now))
    && KeyedByAddress(merged)
    && forall ip :: ip in merged ==>
         if exists e :: e in events && e.isBan && e.ip == ip then merged[ip].pending
         else ip in active && merged[ip] == active[ip]
  }

  method Extend(saved: seq<Ban>, events: seq<Event>, now: Time)
    returns (bans: seq<Ban>, ghost active: BanMap, ghost merged: BanMap)
    ensures IsExtended(saved, events, now, active, merged)
    ensures AreFirst(bans, merged) && DistinctAddresses(bans)
  {
    var was := ActiveByAddress(saved, now);
    var added := AddEvents(was, events, now);
    var kept := Limit(added);
    bans := MapValues(kept);
    active, merged := was, added;
    assert IsActive(saved, was, now);
    OthersWereActive(was, events, added, now);
    ListsAreDistinct(bans, kept);
  }

  lemma OthersWereActive(active: BanMap, events: seq<Event>, merged: BanMap, now: Time)
    requires forall ip :: ExpiryOf(merged, ip) == Latest(ExpiryOf(active, ip), events, |events|, ip, now)
    ensures forall ip :: ip in merged && !(exists e :: e in events && e.isBan && e.ip == ip) ==> ip in active
  {
    forall ip | ip in merged && !(exists e :: e in events && e.isBan && e.ip == ip)
      ensures ip in active
    {
      LatestIsMaximum(ExpiryOf(active, ip), events, |events|, ip, now);
    }
  }

  // The bans in `trimmed` are the first of those in `saved` that have not expired.
  ghost predicate IsTrimmed(saved: seq<Ban>, trimmed: seq<Ban>, now: Time) {
    exists all :: IsActive(saved, all, now) && AreFirst(trimmed, all)
  }

  method Trim(saved: seq<Ban>, now: Time) returns (trimmed: seq<Ban>)
    ensures IsTrimmed(saved, trimmed, now) && DistinctAddresses(trimmed)
    ensures Unexpired(Pairs(trimmed), now) == Pairs(trimmed)
  {
    var all := ActiveByAddress(saved, now);
    var kept := Limit(all);
    trimmed := MapValues(kept);
    ListsAreDistinct(trimmed, kept);
    AllUnexpired(trimmed, now);
    assert IsActive(saved, all, now);
  }

  // The bans of a synchronisation: saved and unexpired, the first of these,
  // merged with the remote ones, and the first of those.
  datatype Merging = Merging(all: BanMap, limited: BanMap, both: BanMap, kept: BanMap)

  ghost predicate AreMerged(saved: seq<Ban>, remote: seq<RemoteBan>, now: Time,
                            previous: seq<Ban>, merged: seq<Ban>, w: Merging)
  {
    && IsActive(saved, w.all, now) && IsLimited(w.all, w.limited, LOCAL_BAN_LIMIT) && Lists(previous, w.limited)
    && IsMerged(remote, w.limited, now, w.both) && IsLimited(w.both, w.kept, LOCAL_BAN_LIMIT) && Lists(merged, w.kept)
  }

  // Where nothing is to be saved, the saved bans are the merged ones already.
  lemma SkippedIsSynced(saved: seq<Ban>, previous: seq<Ban>, merged: seq<Ban>)
    requires DistinctAddresses(saved) && DistinctAddresses(previous) && forall b :: b in previous ==> b in saved
    requires |saved| == |previous| && Equivalent(previous, merged)
    ensures Settings(saved) == Settings(merged) && Pairs(saved) == Pairs(merged)
  {
    EquivalentHaveSettings(previous, merged);
    NoneDropped(saved, previous);
  }

  method MergeSaved(saved: seq<Ban>, remote: seq<RemoteBan>, now: Time)
    returns (previous: seq<Ban>, bans: seq<Ban>, ghost w: Merging)
    ensures AreMerged(saved, remote, now, previous, bans, w)
    ensures Settings(bans) == MapSettings(w.kept)
    ensures Pairs(bans) == MapPairs(w.kept) && Unexpired(Pairs(bans), now) == Pairs(bans)
    ensures DistinctAddresses(bans) && DistinctAddresses(previous)
    ensures forall b :: b in previous ==> b in saved
  {
    var all := ActiveByAddress(saved, now);
    var limited := Limit(all);
    previous := MapValues(limited);
    var merged := Merge(remote, previous, limited, now);
    var first := Limit(merged);
    bans := MapValues(first);
    w := Merging(all, limited, merged, first);
    MergedIsUnexpired(remote, limited, now, merged);
    ListsAreDistinct(bans, first);
    ListsAreDistinct(previous, limited);
    ListPairs(bans, first);
    AllUnexpired(bans, now);
    assert IsActive(saved, all, now);
  }

  ghost predicate IsActive(bans: seq<Ban>, m: BanMap, now: Time) {
    && KeyedByAddress(m)
    && (forall ip :: ip in m ==> m[ip] in bans && m[ip].expires > now)
    && (forall b :: b in bans && b.expires > now ==> b.ip in m)
  }

  function MapPairs(m: BanMap): set<(Address, Time)> {
    set ip | ip in m :: (m[ip].ip, m[ip].expires)
  }

  // With the marks of those that the control plane has not taken in.
  function MapSettings(m: BanMap): set<(Address, Time, bool)> {
    set ip | ip in m :: (m[ip].ip, m[ip].expires, m[ip].pending)
  }

  method ActiveBans(bans: seq<Ban>, now: Time) returns (active: seq<Ban>)
    ensures Pairs(active) == Unexpired(Pairs(bans), now)
  {
    active := [];
    for i := 0 to |bans|
      invariant forall b :: b in active <==> b in bans[..i] && b.expires > now
    {
      assert forall x :: x in bans[..i + 1] <==> x in bans[..i] || x == bans[i];
      if bans[i].expires > now {
        active := active + [bans[i]];
      }
    }
    assert bans[..|bans|] == bans;
  }

  lemma LaterIsSame(a: set<(Address, Time)>, b: set<(Address, Time)>, past: Time, now: Time)
    requires past <= now
    ensures Unexpired(a, past) == Unexpired(b, past) ==> Unexpired(a, now) == Unexpired(b, now)
  {
    if Unexpired(a, past) == Unexpired(b, past) {
      forall p
        ensures p in Unexpired(a, now) <==> p in Unexpired(b, now)
      {
        assert p in Unexpired(a, past) <==> p in Unexpired(b, past);
      }
    }
  }

  lemma AllUnexpired(bans: seq<Ban>, now: Time)
    requires forall b :: b in bans ==> b.expires > now
    ensures Unexpired(Pairs(bans), now) == Pairs(bans)
  {
  }

  lemma ListsAreDistinct(s: seq<Ban>, m: BanMap)
    requires Lists(s, m)
    ensures DistinctAddresses(s)
  {
    forall i, j | 0 <= i < j < |s|
      ensures Differ(s, i, j)
    {
      assert Ascend(s, i, j);
    }
  }

  lemma ListPairs(s: seq<Ban>, m: BanMap)
    requires Lists(s, m)
    ensures Pairs(s) == MapPairs(m) && Settings(s) == MapSettings(m)
  {
  }

  lemma SamePairs(s: seq<Ban>, t: seq<Ban>)
    requires |s| == |t| && forall i :: 0 <= i < |s| ==> s[i].ip == t[i].ip && s[i].expires == t[i].expires
    ensures Pairs(s) == Pairs(t)
  {
    forall p
      ensures p in Pairs(s) <==> p in Pairs(t)
    {
      if p in Pairs(s) {
        var i :| 0 <= i < |s| && p == (s[i].ip, s[i].expires);
        assert t[i] in t;
      }
      if p in Pairs(t) {
        var i :| 0 <= i < |t| && p == (t[i].ip, t[i].expires);
        assert s[i] in s;
      }
    }
  }

  // ---------- a synchronisation that overlooks a ban ----------

  predicate IsOnly(m: BanMap, b: Ban) {
    b.ip in m && m[b.ip] == b && forall ip :: ip in m ==> ip == b.ip
  }

  lemma OnlyIsActive(saved: seq<Ban>, b: Ban, all: BanMap, now: Time)
    requires saved == [b] && b.expires > now && IsActive(saved, all, now)
    ensures IsOnly(all, b)
  {
    assert b in saved;
  }

  lemma OnlyStays(all: BanMap, kept: BanMap, b: Ban)
    requires IsOnly(all, b) && IsLimited(all, kept, LOCAL_BAN_LIMIT)
    ensures IsOnly(kept, b)
  {
    assert all.Keys == {b.ip};
    assert |all| == |all.Keys| == 1;
    var ip :| ip in kept;
  }

  lemma OnlyIsListed(s: seq<Ban>, m: BanMap, b: Ban)
    requires IsOnly(m, b) && Lists(s, m)
    ensures s == [b]
  {
    ListsAreDistinct(s, m);
    DistinctCount(s);
    assert Elements(s) == {b} by {
      assert m[b.ip] in s;
    }
  }

  lemma OnlyMerges(limited: BanMap, both: BanMap, b: Ban, now: Time)
    requires IsOnly(limited, b) && b.pending && IsMerged([], limited, now, both)
    ensures IsOnly(both, b)
  {
    forall ip
      ensures ip in both ==> ip == b.ip
    {
      assert RemoteExpiry([], 0, ip, now) == None;
    }
  }

  lemma OnlyPairs(m: BanMap, b: Ban)
    requires IsOnly(m, b)
    ensures MapPairs(m) == {(b.ip, b.expires)}
  {
  }

  // The only ban of a list that was empty, as it is saved.
  lemma OnlyIsSaved(e: Event, now: Time, active: BanMap, both: BanMap, saved: seq<Ban>)
    requires e.isBan && IsExtended([], [e], now, active, both) && AreFirst(saved, both)
    ensures |saved| == 1 && saved[0].ip == e.ip && saved[0].expires == now + e.seconds * SECOND && saved[0].pending
  {
    OnlyIsAdded(e, now, active, both);
    var b := both[e.ip];
    var kept :| IsLimited(both, kept, LOCAL_BAN_LIMIT) && Lists(saved, kept);
    OnlyStays(both, kept, b);
    OnlyIsListed(saved, kept, b);
  }

  lemma OnlyIsAdded(e: Event, now: Time, active: BanMap, both: BanMap)
    requires e.isBan && IsExtended([], [e], now, active, both)
    ensures e.ip in both && IsOnly(both, both[e.ip])
    ensures both[e.ip].ip == e.ip && both[e.ip].expires == now + e.seconds * SECOND && both[e.ip].pending
  {
    assert active == map[];
    forall ip
      ensures ip in both <==> ip == e.ip
      ensures ip in both ==> both[ip].expires == now + e.seconds * SECOND
    {
      assert ExpiryOf(active, ip) == None && Latest(None, [e], 0, ip, now) == None;
      assert ExpiryOf(both, ip) == Latest(None, [e], 1, ip, now);
    }
    assert e in [e];
  }

  // A pending ban merges with nothing to itself.
  lemma OnlyIsMerged(saved: seq<Ban>, b: Ban, now: Time, previous: seq<Ban>, merged: seq<Ban>, w: Merging)
    requires saved == [b] && b.expires > now && b.pending && AreMerged(saved, [], now, previous, merged, w)
    ensures previous == [b] && merged == [b] && IsOnly(w.kept, b)
  {
    OnlyIsActive(saved, b, w.all, now);
    OnlyStays(w.all, w.limited, b);
    OnlyIsListed(previous, w.limited, b);
    OnlyMerges(w.limited, w.both, b, now);
    OnlyStays(w.both, w.kept, b);
    OnlyIsListed(merged, w.kept, b);
  }

  // A ban that was saved alone is skipped by a synchronisation with nothing.
  lemma OnlyIsSkipped(saved: seq<Ban>, b: Ban, now: Time, previous: seq<Ban>, merged: seq<Ban>, w: Merging)
    requires saved == [b] && b.expires > now && b.pending && AreMerged(saved, [], now, previous, merged, w)
    ensures MaySkip(saved, previous, merged, false) && MapPairs(w.kept) == {(b.ip, b.expires)}
  {
    OnlyIsMerged(saved, b, now, previous, merged, w);
    OnlyPairs(w.kept, b);
  }

  lemma NothingIsTrimmed(trimmed: seq<Ban>, now: Time)
    requires IsTrimmed([], trimmed, now)
    ensures trimmed == []
  {
    var all :| IsActive([], all, now) && AreFirst(trimmed, all);
    var kept :| IsLimited(all, kept, LOCAL_BAN_LIMIT) && Lists(trimmed, kept);
    ListsAreDistinct(trimmed, kept);
    DistinctCount(trimmed);
    assert Elements(trimmed) == {};
  }

  // A ban is saved, and the firewall is not told of it.
  method SaveOnly(ip: Address) returns (m: SecurityManager, ghost lapsed: bool)
    ensures fresh(m) && m.Valid() && m.clock == 0
    ensures lapsed ==> |m.saved| == 1 && m.saved[0].ip == ip && m.saved[0].expires == 60 * SECOND && m.saved[0].pending
    ensures lapsed ==> m.firewall == {} && !m.dirty
  {
    lapsed := false;
    m := new SecurityManager([], {}, 0);
    var ok := m.Initialize(0);
    if !ok {
      return;
    }
    NothingIsTrimmed(m.saved, 0);
    var e := Event(ip, true, 60);
    ghost var active, both;
    ok, active, both := m.CollectBans([e], 0);
    lapsed := m.lagging;
    if lapsed {
      OnlyIsSaved(e, 0, active, both, m.saved);
    }
  }

  // It can happen: a ban is saved, the write of the log offset fails, and the
  // next synchronisation finds nothing to do while the firewall has nothing.
  method LaggingIsOverlooked(ip: Address)
    returns (m: SecurityManager, ghost lapsed: bool, ok: bool, ghost previous: seq<Ban>, ghost merged: seq<Ban>,
             ghost w: Merging)
    ensures fresh(m) && m.Valid() && m.clock == 0
    ensures lapsed && ok ==> AreMerged(m.saved, [], 0, previous, merged, w)
    ensures lapsed && ok ==> Pairs(m.saved) == MapPairs(w.kept) == {(ip, 60 * SECOND)} && m.firewall == {}
  {
    m, lapsed := SaveOnly(ip);
    ghost var saved := m.saved;
    ok, previous, merged, w := m.SyncBans([], 0);
    if lapsed && ok {
      OnlyIsSkipped(saved, saved[0], 0, previous, merged, w);
      assert saved == [saved[0]] && Pairs(saved) == {(ip, 60 * SECOND)};
    }
  }
}
