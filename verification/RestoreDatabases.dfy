// The ClickHouse half of the online-restore cutover: the restored database is
// renamed into place and the previous one is kept, over a connection whose
// replies can be lost.
module RestoreDatabases {
  import opened Options
  import opened RestoreDisk

  // What the three database names of a restore job hold.
  datatype Catalog = Catalog(current: Option<string>, temporary: Option<string>, rollback: Option<string>)

  datatype Name = Current | Temporary | Rollback

  function Get(c: Catalog, n: Name): Option<string> {
    match n
    case Current => c.current
    case Temporary => c.temporary
    case Rollback => c.rollback
  }

  function Put(c: Catalog, n: Name, d: Option<string>): Catalog {
    match n
    case Current => c.(current := d)
    case Temporary => c.(temporary := d)
    case Rollback => c.(rollback := d)
  }

  function Renamed(c: Catalog, source: Name, target: Name): Catalog {
    Put(Put(c, source, None), target, Get(c, source))
  }

  // How a promotion reports: with or without an error, and with the error that
  // asks for a manual rollback or another one.
  datatype Promotion = Promotion(promoted: bool, oldRenamed: bool, outcome: Outcome)

  // Where a first attempt starts.
  predicate IsFirst(c: Catalog) {
    c.temporary.Some? && c.rollback.None?
  }

  function Aside(c: Catalog): Catalog {
    if c.current.Some? then Renamed(c, Current, Rollback) else c
  }

  function Promoted(c: Catalog): Catalog {
    Renamed(Aside(c), Temporary, Current)
  }

  // The catalogs that a promotion goes through.
  function Progress(c: Catalog): set<Catalog> {
    if IsFirst(c) then {c, Aside(c), Promoted(c)} else {c}
  }

  // All that is left of a finished earlier attempt is to say so.
  predicate IsPromoted(c: Catalog) {
    c.temporary.None? && c.current.Some? && c.rollback.Some?
  }

  // What a promotion of c can end in.
  ghost predicate PromotionResult(c: Catalog, d: Catalog, p: Promotion) {
    && d in Progress(c)
    && (p.outcome == Ok ==> p.promoted && (IsFirst(c) || IsPromoted(c)))
    && (p.outcome == Ok ==> p.oldRenamed == c.current.Some?)
    && (p.outcome == Ok && IsFirst(c) ==> d == Promoted(c))
    && (p.outcome == Failed && IsFirst(c) ==>
          && (p.promoted ==> d == Promoted(c) && p.oldRenamed == c.current.Some?)
          && (!p.promoted ==> d == if p.oldRenamed then Aside(c) else c)
          && (p.oldRenamed ==> c.current.Some?))
    && (p.outcome == Failed && !IsFirst(c) ==> !p.promoted && (p.oldRenamed ==> IsPromoted(c)))
    && (p.outcome == ManualRollback ==> IsFirst(c) && !p.promoted)
  }

  // The two renames of a rollback, each when it is due.
  function Demoted(c: Catalog, p: Promotion): Catalog {
    if p.promoted then Renamed(c, Current, Temporary) else c
  }

  function Undone(c: Catalog, p: Promotion): Catalog {
    if p.oldRenamed then Renamed(Demoted(c, p), Rollback, Current) else Demoted(c, p)
  }

  // What a rollback after a promotion that reported p can end in.
  ghost predicate RollbackResult(c: Catalog, d: Catalog, p: Promotion, ok: bool) {
    && d in {c, Demoted(c, p), Undone(c, p)}
    && (d != c && p.promoted ==> c.current.Some? && c.temporary.None?)
    && (d != c && !p.promoted ==> c.rollback.Some? && c.current.None?)
    && (d != c && d != Demoted(c, p) ==> c.rollback.Some?)
    && (ok ==> d == Undone(c, p))
    && (ok && (p.promoted || p.oldRenamed) ==> d != c)
  }

  // Both renames have a source and a free target.
  predicate CanRollBack(c: Catalog, p: Promotion) {
    && (p.promoted ==> c.current.Some? && c.temporary.None?)
    && (p.oldRenamed ==> c.rollback.Some? && Demoted(c, p).current.None?)
  }

  // It is so after a first promotion, unless that asked for a manual rollback.
  lemma PromotionCanBeRolledBack(c: Catalog, d: Catalog, p: Promotion)
    requires IsFirst(c) && PromotionResult(c, d, p) && p.outcome != ManualRollback
    ensures CanRollBack(d, p)
  {
  }

  class ClickHouse {
    var catalog: Catalog
    // How many operations have failed for no reason visible in the catalog.
    ghost var faults: nat

    constructor (catalog: Catalog)
      ensures this.catalog == catalog && faults == 0
    {
      this.catalog, faults := catalog, 0;
    }

    method Attempt() returns (ok: bool)
      modifies this`faults
      ensures faults == old(faults) + Failures(ok)
    {
      ok := *;
      if !ok {
        faults := faults + 1;
      }
    }

    method DatabaseExists(n: Name) returns (r: Stat)
      modifies this`faults
      ensures faults == old(faults) + Failures(r != Unreadable)
      ensures r == Found ==> Get(catalog, n).Some?
      ensures r == Missing ==> Get(catalog, n).None?
    {
      var readable := Attempt();
      if !readable {
        return Unreadable;
      }
      return if Get(catalog, n).Some? then Found else Missing;
    }

    method ValidateDatabase(n: Name) returns (ok: bool)
      modifies this`faults
      ensures faults == old(faults) + Failures(ok)
    {
      ok := Attempt();
    }

    // An atomic rename that needs a source and no target. Its reply can be
    // lost: an error does not say that the rename had no effect.
    method RenameDatabase(source: Name, target: Name) returns (ok: bool)
      requires source != target
      modifies this
      ensures catalog == old(catalog) ||
        (Get(old(catalog), source).Some? && Get(old(catalog), target).None? && catalog == Renamed(old(catalog), source, target))
      ensures ok ==> catalog != old(catalog)
      ensures faults >= old(faults)
      ensures Get(old(catalog), source).Some? && Get(old(catalog), target).None? ==> faults == old(faults) + Failures(ok)
    {
      if Get(catalog, source).None? || Get(catalog, target).Some? {
        return false;
      }
      ok := Attempt();
      var reached: bool := *;
      if ok || reached {
        catalog := Renamed(catalog, source, target);
      }
    }

    // The drop of the temporary database, whose outcome nobody looks at.
    method DropTemporary()
      modifies this`catalog
      ensures catalog == old(catalog) || catalog == old(catalog).(temporary := None)
    {
      var reached: bool := *;
      if reached {
        catalog := catalog.(temporary := None);
      }
    }

    // A rename whose lost reply is made up for by looking at both names.
    method RenameObserved(source: Name, target: Name) returns (renamed: bool, outcome: Outcome)
      requires source != target
      modifies this
      ensures catalog == old(catalog) ||
        (Get(old(catalog), source).Some? && Get(old(catalog), target).None? && catalog == Renamed(old(catalog), source, target))
      ensures outcome == Ok <==> renamed
      ensures outcome == Ok && Get(old(catalog), source).Some? ==> catalog != old(catalog)
      ensures outcome == Failed ==> catalog == old(catalog)
      ensures faults >= old(faults)
      ensures Get(old(catalog), source).Some? && Get(old(catalog), target).None? ==>
        faults >= old(faults) + Failures(outcome == Ok) + Failures(outcome != ManualRollback)
    {
      var ok := RenameDatabase(source, target);
      if ok {
        return true, Ok;
      }
      var sourceStat := DatabaseExists(source);
      var targetStat := DatabaseExists(target);
      if sourceStat == Unreadable || targetStat == Unreadable {
        return false, ManualRollback;
      }
      if sourceStat == Missing && targetStat == Found {
        return true, Ok;
      }
      if sourceStat == Found && targetStat == Missing {
        return false, Failed;
      }
      return false, ManualRollback;
    }

    method Promote() returns (p: Promotion)
      modifies this
      ensures PromotionResult(old(catalog), catalog, p)
      ensures faults >= old(faults)
      ensures IsFirst(old(catalog)) || IsPromoted(old(catalog)) ==>
        faults >= old(faults) + Failures(p.outcome == Ok) + Failures(p.outcome != ManualRollback)
    {
      var temporaryStat := DatabaseExists(Temporary);
      if temporaryStat == Unreadable { return Promotion(false, false, Failed); }
      var currentStat := DatabaseExists(Current);
      if currentStat == Unreadable { return Promotion(false, false, Failed); }
      var rollbackStat := DatabaseExists(Rollback);
      if rollbackStat == Unreadable { return Promotion(false, false, Failed); }
      if temporaryStat == Missing {
        if currentStat == Found && rollbackStat == Found {
          var valid := ValidateDatabase(Current);
          return if valid then Promotion(true, true, Ok) else Promotion(false, true, Failed);
        }
        return Promotion(false, false, Failed);
      }
      if rollbackStat == Found {
        return Promotion(false, false, Failed);
      }
      var oldRenamed := false;
      if currentStat == Found {
        var valid := ValidateDatabase(Current);
        if !valid { return Promotion(false, false, Failed); }
        var renamed, outcome := RenameObserved(Current, Rollback);
        if outcome != Ok {
          return Promotion(false, renamed, outcome);
        }
        oldRenamed := renamed;
      }
      var promoted, outcome := RenameObserved(Temporary, Current);
      if outcome != Ok {
        return Promotion(promoted, oldRenamed, outcome);
      }
      var valid := ValidateDatabase(Current);
      return Promotion(true, oldRenamed, if valid then Ok else Failed);
    }

    method RollbackPromotion(p: Promotion) returns (ok: bool)
      modifies this
      ensures RollbackResult(old(catalog), catalog, p, ok)
      ensures faults >= old(faults)
      ensures CanRollBack(old(catalog), p) ==> faults >= old(faults) + Failures(ok)
    {
      if p.promoted {
        var demoted := RenameDatabase(Current, Temporary);
        if !demoted {
          return false;
        }
      }
      ok := true;
      if p.oldRenamed {
        ok := RenameDatabase(Rollback, Current);
      }
    }
  }

  // A first promotion that fails, whatever replies were lost, and a rollback
  // that reports no error put every name back.
  lemma FailedPromotionIsUndone(c: Catalog, d: Catalog, e: Catalog, p: Promotion)
    requires IsFirst(c) && PromotionResult(c, d, p) && p.outcome == Failed
    requires RollbackResult(d, e, p, true)
    ensures e == c
  {
  }

  // So does a rollback after a promotion that succeeded.
  lemma SuccessfulPromotionCanBeUndone(c: Catalog, d: Catalog, e: Catalog, p: Promotion)
    requires IsFirst(c) && PromotionResult(c, d, p) && p.outcome == Ok
    requires RollbackResult(d, e, p, true)
    ensures e == c
  {
  }

  predicate Holds(c: Catalog, d: Option<string>) {
    d.Some? ==> d in {c.current, c.temporary, c.rollback}
  }

  // Whatever happens, the previous and the restored database both survive.
  lemma NothingIsDropped(c: Catalog, d: Catalog, e: Catalog, p: Promotion, ok: bool)
    requires IsFirst(c) && PromotionResult(c, d, p) && RollbackResult(d, e, p, ok)
    ensures Holds(d, c.current) && Holds(d, c.temporary)
    ensures Holds(e, c.current) && Holds(e, c.temporary)
  {
  }

  // A second process, started after a crash of the first one: when it fails
  // and its rollback reports no error, the names hold what the first process
  // found exactly when the second one still finds the temporary database and
  // no rollback database. Its rollback never undoes renames of the first one.
  lemma FailureAfterCrash(c: Catalog, crashed: Catalog, d: Catalog, e: Catalog, p: Promotion)
    requires IsFirst(c) && crashed in Progress(c)
    requires PromotionResult(crashed, d, p) && p.outcome == Failed
    requires RollbackResult(d, e, p, true)
    ensures e == c <==> IsFirst(crashed)
    ensures e == crashed
  {
  }

  // A crash between the two renames is such a case: the second process cannot
  // but fail, and leaves no database under the current name.
  lemma CrashBetweenRenames(c: Catalog, d: Catalog, p: Promotion)
    requires IsFirst(c) && c.current.Some?
    requires PromotionResult(Aside(c), d, p)
    ensures p.outcome == Failed && !p.promoted && !p.oldRenamed
    ensures d == Aside(c) && d.current.None?
  {
  }
}
