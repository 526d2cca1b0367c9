// From rejected requests to a ban: one client and one policy that bans.
module RateEscalation {
  import opened Options

  // A strike is a rejected request that was counted; a ban that could not be
  // stored clears the strikes as an admitted request does.
  datatype Mark = Strike(time: real, banned: bool) | Clear

  datatype Streak = Streak(count: nat, expires: real)

  const KEY_TTL: real := 3.0

  // The strikes at the end of `log` that follow each other closely, with
  // nothing in between that starts them afresh.
  function Unbroken(log: seq<Mark>): (n: nat)
    ensures n <= |log|
  {
    if log == [] || log[|log| - 1].Clear? then 0
    else 1 + if Follows(log) then Unbroken(log[..|log| - 1]) else 0
  }

  // The last strike comes before the one before it has been forgotten.
  predicate Follows(log: seq<Mark>)
    requires log != [] && log[|log| - 1].Strike?
  {
    |log| > 1 && match log[|log| - 2]
                 case Strike(time, banned) => !banned && log[|log| - 1].time < time + KEY_TTL
                 case Clear => false
  }

  // A ban comes with the n-th unbroken strike, and always then.
  predicate BansExactly(log: seq<Mark>, n: nat) {
    log != [] ==>
      && BansExactly(log[..|log| - 1], n)
      && (log[|log| - 1].Strike? ==> (log[|log| - 1].banned <==> Unbroken(log) == n))
  }

  // What an unbroken run of strikes is.
  lemma {:induction false} UnbrokenIsClose(log: seq<Mark>, i: nat)
    requires |log| - Unbroken(log) <= i < |log|
    ensures log[i].Strike?
    ensures i + 1 < |log| ==> log[i + 1].Strike? && !log[i].banned && log[i + 1].time < log[i].time + KEY_TTL
  {
    if i + 1 < |log| {
      UnbrokenIsClose(log[..|log| - 1], i);
    }
  }

  class Escalation {
    const banAfter: nat
    const banSeconds: nat
    var streak: Option<Streak>
    var event: Option<real>
    ghost var log: seq<Mark>

    // A streak is what the log says, and never more than one short of a ban.
    ghost predicate Valid()
      reads this
    {
      && BansExactly(log, banAfter)
      && match streak
         case None => log == [] || log[|log| - 1].Clear? || log[|log| - 1].banned
         case Some(s) => log != [] && log[|log| - 1].Strike? && !log[|log| - 1].banned
                         && s.count == Unbroken(log) < banAfter && s.expires == log[|log| - 1].time + KEY_TTL
    }

    constructor (banAfter: nat, banSeconds: nat)
      requires banAfter > 0
      ensures Valid() && log == []
      ensures this.banAfter == banAfter && this.banSeconds == banSeconds
    {
      this.banAfter, this.banSeconds := banAfter, banSeconds;
      streak, event, log := None, None, [];
    }

    method ResetStreak()
      requires Valid()
      modifies this
      ensures Valid() && log == old(log) + [Clear]
    {
      streak, log := None, log + [Clear];
      assert log[..|log| - 1] == old(log);
    }

    function Next(now: real): nat
      reads this
    {
      1 + if streak.Some? && now < streak.value.expires then streak.value.count else 0
    }

    // While a ban lasts, and without memory, a rejection is not counted;
    // `stored` tells that memory sufficed.
    method RecordRejection(now: real) returns (banned: bool, ghost stored: bool)
      requires Valid() && banAfter > 0
      modifies this
      ensures Valid()
      ensures log == old(log) || log == old(log) + [Clear] || log == old(log) + [Strike(now, banned)]
      ensures banned ==> log == old(log) + [Strike(now, true)] && event == Some(now + banSeconds as real)
      ensures old(event).Some? && now < old(event).value ==> log == old(log) && !banned
      ensures stored && !(old(event).Some? && now < old(event).value) ==> log == old(log) + [Strike(now, banned)]
    {
      if event.Some? && now < event.value {
        return false, true;
      }
      var full: bool := *;
      if full {
        return false, false;
      }
      var strikes := Next(now);
      StrikeExtends(now);
      if strikes < banAfter {
        streak := Some(Streak(strikes, now + KEY_TTL));
        log := log + [Strike(now, false)];
        return false, true;
      }
      var recorded: bool := *;
      streak := None;
      if !recorded {
        log := log + [Clear];
        assert log[..|log| - 1] == old(log);
        return false, false;
      }
      event := Some(now + banSeconds as real);
      log := log + [Strike(now, true)];
      return true, true;
    }

    lemma StrikeExtends(now: real)
      requires Valid()
      ensures forall banned :: Unbroken(log + [Strike(now, banned)]) == Next(now)
      ensures forall banned {:trigger Strike(now, banned)} :: (log + [Strike(now, banned)])[..|log|] == log
    {
      forall banned
        ensures Unbroken(log + [Strike(now, banned)]) == Next(now)
        ensures (log + [Strike(now, banned)])[..|log|] == log
      {
        var next := log + [Strike(now, banned)];
        assert next[..|next| - 1] == log;
      }
    }
  }
}
