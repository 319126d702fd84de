/** Waiting for a DNS-01 challenge to become visible before telling the CA to validate it. */
module Propagation {
  import opened Text

  datatype Outcome = Ready | Unchecked | Pending | Failed

  datatype Exit = Seen | BlindWait | GaveUp

  /** 50 ms, in nanoseconds. */
  const MIN_INTERVAL: nat := 50_000_000

  /** How the world answers: the k-th poll's outcome and how long it takes, and by how much the
      k-th sleep overshoots. */
  datatype World = World(outcome: nat -> Outcome, took: nat -> nat, lag: nat -> nat)

  function CeilDiv(a: nat, b: nat): nat
    requires b > 0
  {
    (a + b - 1) / b
  }

  predicate Undecided(o: Outcome) { o == Pending || o == Failed }

  /** n full intervals. */
  function Times(n: nat, interval: nat): nat { if n == 0 then 0 else Times(n - 1, interval) + interval }

  lemma {:induction false} TimesIsProduct(n: nat, interval: nat)
    ensures Times(n, interval) == n * interval
  {
    if n > 0 { TimesIsProduct(n - 1, interval); }
  }

  /** If a sleep starts within the wait after full ones only, it is among the first this many. */
  lemma SleepsBounded(full: nat, interval: nat, wait: nat)
    requires interval > 0 && Times(full, interval) < wait
    ensures full + 1 <= CeilDiv(wait, interval)
  {
    TimesIsProduct(full, interval);
    DivAtLeast(full + 1, interval, wait + interval - 1);
  }

  lemma DivAtLeast(q: nat, b: nat, a: nat)
    requires b > 0 && q * b <= a
    ensures q <= a / b
  {
    if q > a / b {
      MulMonotone(a / b + 1, q, b);
    }
  }

  lemma MulMonotone(x: nat, y: nat, z: nat)
    requires x <= y
    ensures x * z <= y * z
  {}

  /** The sleep after a poll that ended at `t`: an interval, or what is left of the wait. */
  function Nap(interval: nat, deadline: nat, t: nat): nat
    requires t <= deadline
  {
    if interval <= deadline - t then interval else deadline - t
  }

  /** `ends` are the times at which the polls ended: each but the first starts exactly one sleep and
      its overshoot after the one before ended, which was before the deadline. */
  ghost predicate OnSchedule(world: World, interval: nat, deadline: nat, start: nat, ends: seq<nat>) {
    && |ends| > 0 && ends[0] == start + world.took(0)
    && forall k :: 0 <= k < |ends| - 1 ==>
         && ends[k] < deadline
         && ends[k + 1] == ends[k] + (if interval < deadline - ends[k] then interval else deadline - ends[k])
                           + world.lag(k) + world.took(k + 1)
  }

  /** The sleep after the first n polls. */
  function Naps(interval: nat, deadline: nat, ends: seq<nat>, n: nat): nat
    requires n <= |ends| && forall k :: 0 <= k < n ==> ends[k] <= deadline
  {
    if n == 0 then 0 else Naps(interval, deadline, ends, n - 1) + Nap(interval, deadline, ends[n - 1])
  }

  /** How the wait went: every poll but the last was undecided, the exit is what the last one
      calls for, and what was slept and when it ended. */
  ghost predicate Waited(world: World, interval: nat, wait: nat, start: nat, ends: seq<nat>, exit: Exit, slept: nat, now: nat) {
    && OnSchedule(world, interval, start + wait, start, ends)
    && (forall k :: 0 <= k < |ends| - 1 ==> Undecided(world.outcome(k)))
    && var last := |ends| - 1;
       var naps := Naps(interval, start + wait, ends, last);
       match exit
       case Seen => world.outcome(last) == Ready && slept == naps && now == ends[last]
       case BlindWait => world.outcome(last) == Unchecked && slept == naps + wait && now == ends[last] + wait + world.lag(last)
       case GaveUp => Undecided(world.outcome(last)) && slept == naps && now == ends[last] >= start + wait
  }

  /** What was slept between polls fits into the wait, and is at most an interval a time. */
  lemma {:induction false} NapsBounded(world: World, interval: nat, deadline: nat, start: nat, ends: seq<nat>, n: nat)
    requires start <= deadline && OnSchedule(world, interval, deadline, start, ends) && n < |ends|
    ensures Naps(interval, deadline, ends, n) <= Times(n, interval) && Naps(interval, deadline, ends, n) <= deadline - start
    ensures start + Naps(interval, deadline, ends, n) <= ends[n]
  {
    if n > 0 { NapsBounded(world, interval, deadline, start, ends, n - 1); }
  }

  /** All sleeps but perhaps the last are full intervals. */
  lemma {:induction false} FullNaps(world: World, interval: nat, deadline: nat, start: nat, ends: seq<nat>, n: nat)
    requires OnSchedule(world, interval, deadline, start, ends) && n < |ends| - 1
    ensures start + Times(n, interval) <= ends[n] < deadline
  {
    if n > 0 { FullNaps(world, interval, deadline, start, ends, n - 1); }
  }

  lemma PollsBounded(world: World, interval: nat, wait: nat, start: nat, ends: seq<nat>)
    requires interval > 0 && OnSchedule(world, interval, start + wait, start, ends)
    ensures |ends| <= CeilDiv(wait, interval) + 1
  {
    if |ends| > 1 {
      FullNaps(world, interval, start + wait, start, ends, |ends| - 2);
      SleepsBounded(|ends| - 2, interval, wait);
    }
  }

  /** So the total sleep is at most the wait, and at most an interval for each poll after the
      first, unless nobody could look; and there are at most ceil(wait / interval) + 1 polls. */
  lemma WaitIsBounded(world: World, interval: nat, wait: nat, start: nat, ends: seq<nat>, exit: Exit, slept: nat, now: nat)
    requires interval > 0 && Waited(world, interval, wait, start, ends, exit, slept, now)
    ensures |ends| <= CeilDiv(wait, interval) + 1
    ensures exit != BlindWait ==> slept <= wait && slept <= Times(|ends| - 1, interval)
    ensures exit == BlindWait ==> wait <= slept <= 2 * wait
  {
    NapsBounded(world, interval, start + wait, start, ends, |ends| - 1);
    PollsBounded(world, interval, wait, start, ends);
  }

  /** From `visible` on a poll that starts would find the record. */
  ghost predicate VisibleFrom(world: World, ends: seq<nat>, visible: nat) {
    forall k :: 0 <= k < |ends| && ends[k] >= visible + world.took(k) ==> world.outcome(k) == Ready
  }

  /** The record is not missed for long: the last poll starts at once, or within one poll, one
      interval and one overshoot of the moment the record became visible. */
  lemma SeenPromptly(world: World, interval: nat, wait: nat, start: nat, ends: seq<nat>, exit: Exit, slept: nat, now: nat,
                     visible: nat)
    requires Waited(world, interval, wait, start, ends, exit, slept, now) && VisibleFrom(world, ends, visible)
    ensures var last := |ends| - 1;
            last == 0 || ends[last] < visible + world.took(last - 1) + interval + world.lag(last - 1) + world.took(last)
  {
    var last := |ends| - 1;
    if last > 0 { assert Undecided(world.outcome(last - 1)); }
  }

  /** Between rounds: every poll was undecided and ended before the deadline, and the sleep after
      the last is over. */
  ghost predicate Waiting(world: World, interval: nat, wait: nat, start: nat, ends: seq<nat>, slept: nat, now: nat) {
    && (forall k :: 0 <= k < |ends| ==> Undecided(world.outcome(k)) && ends[k] < start + wait)
    && slept == Naps(interval, start + wait, ends, |ends|)
    && if ends == [] then now == start
       else
         var last := |ends| - 1;
         OnSchedule(world, interval, start + wait, start, ends)
         && now == ends[last] + Nap(interval, start + wait, ends[last]) + world.lag(last)
  }

  lemma {:induction false} NapsIgnoreLater(interval: nat, deadline: nat, ends: seq<nat>, more: seq<nat>, n: nat)
    requires n <= |ends| && ends <= more && forall k :: 0 <= k < n ==> more[k] <= deadline
    ensures forall k :: 0 <= k < n ==> ends[k] <= deadline
    ensures Naps(interval, deadline, ends, n) == Naps(interval, deadline, more, n)
  {
    assert forall k :: 0 <= k < n ==> ends[k] == more[k];
    if n > 0 { NapsIgnoreLater(interval, deadline, ends, more, n - 1); }
  }

  lemma NextIsOnSchedule(world: World, interval: nat, wait: nat, start: nat, ends: seq<nat>, slept: nat, now: nat)
    requires Waiting(world, interval, wait, start, ends, slept, now)
    ensures var more := ends + [now + world.took(|ends|)];
            && OnSchedule(world, interval, start + wait, start, more)
            && Naps(interval, start + wait, more, |ends|) == slept
  {
    NapsIgnoreLater(interval, start + wait, ends, ends + [now + world.took(|ends|)], |ends|);
  }

  /** A round leaves the wait over, or still on and nearer to the deadline. */
  ghost predicate AfterRound(world: World, interval: nat, wait: nat, start: nat, ends: seq<nat>, exit: Option<Exit>,
                             slept: nat, now: nat)
  {
    match exit
    case Some(e) => Waited(world, interval, wait, start, ends, e, slept, now)
    case None =>
      && Waiting(world, interval, wait, start, ends, slept, now)
      && ends != [] && ends[|ends| - 1] < start + wait && ends[|ends| - 1] < now
  }

  lemma RoundSees(world: World, interval: nat, wait: nat, start: nat, ends: seq<nat>, slept: nat, now: nat)
    requires Waiting(world, interval, wait, start, ends, slept, now) && world.outcome(|ends|) == Ready
    ensures var polled := now + world.took(|ends|);
            AfterRound(world, interval, wait, start, ends + [polled], Some(Seen), slept, polled)
  {
    NextIsOnSchedule(world, interval, wait, start, ends, slept, now);
  }

  lemma RoundIsBlind(world: World, interval: nat, wait: nat, start: nat, ends: seq<nat>, slept: nat, now: nat)
    requires Waiting(world, interval, wait, start, ends, slept, now) && world.outcome(|ends|) == Unchecked
    ensures var polled := now + world.took(|ends|);
            AfterRound(world, interval, wait, start, ends + [polled], Some(BlindWait), slept + wait,
                       polled + wait + world.lag(|ends|))
  {
    NextIsOnSchedule(world, interval, wait, start, ends, slept, now);
  }

  lemma RoundGivesUp(world: World, interval: nat, wait: nat, start: nat, ends: seq<nat>, slept: nat, now: nat)
    requires Waiting(world, interval, wait, start, ends, slept, now) && Undecided(world.outcome(|ends|))
    requires now + world.took(|ends|) >= start + wait
    ensures var polled := now + world.took(|ends|);
            AfterRound(world, interval, wait, start, ends + [polled], Some(GaveUp), slept, polled)
  {
    NextIsOnSchedule(world, interval, wait, start, ends, slept, now);
  }

  lemma RoundGoesOn(world: World, interval: nat, wait: nat, start: nat, ends: seq<nat>, slept: nat, now: nat)
    requires Waiting(world, interval, wait, start, ends, slept, now)
    requires interval > 0 && Undecided(world.outcome(|ends|)) && now + world.took(|ends|) < start + wait
    ensures var polled := now + world.took(|ends|);
            var nap := Nap(interval, start + wait, polled);
            AfterRound(world, interval, wait, start, ends + [polled], None, slept + nap, polled + nap + world.lag(|ends|))
  {
    NextIsOnSchedule(world, interval, wait, start, ends, slept, now);
  }

  /** One turn of the loop: poll, then leave or sleep. */
  method Round(world: World, interval: nat, wait: nat, start: nat, polled: nat, asleep: nat, time: nat, ghost before: seq<nat>)
    returns (exit: Option<Exit>, slept: nat, now: nat, ghost ends: seq<nat>)
    requires interval > 0 && polled == |before| && Waiting(world, interval, wait, start, before, asleep, time)
    ensures ends == before + [time + world.took(polled)]
    ensures AfterRound(world, interval, wait, start, ends, exit, slept, now)
  {
    var deadline, outcome := start + wait, world.outcome(polled);
    slept, now := asleep, time + world.took(polled);
    ends := before + [now];
    if outcome == Ready {
      exit := Some(Seen);
      RoundSees(world, interval, wait, start, before, asleep, time);
    } else if outcome == Unchecked {
      exit, slept, now := Some(BlindWait), slept + wait, now + wait + world.lag(polled);
      RoundIsBlind(world, interval, wait, start, before, asleep, time);
    } else if now >= deadline {
      exit := Some(GaveUp);
      RoundGivesUp(world, interval, wait, start, before, asleep, time);
    } else {
      var nap := Nap(interval, deadline, now);
      exit, slept, now := None, slept + nap, now + nap + world.lag(polled);
      RoundGoesOn(world, interval, wait, start, before, asleep, time);
    }
  }

  /** Poll until the record is seen, nobody can look, or the deadline has passed. */
  method WaitForPropagation(world: World, pollInterval: nat, wait: nat, start: nat)
    returns (exit: Exit, polls: nat, slept: nat, now: nat, ghost ends: seq<nat>)
    ensures polls == |ends|
    ensures Waited(world, if pollInterval < 50_000_000 then 50_000_000 else pollInterval, wait, start, ends, exit, slept, now)
  {
    var interval := if pollInterval >= MIN_INTERVAL then pollInterval else MIN_INTERVAL;
    polls, slept, now, ends := 0, 0, start, [];
    while true
      invariant polls == |ends| && Waiting(world, interval, wait, start, ends, slept, now)
      decreases start + wait - now
    {
      var left;
      left, slept, now, ends := Round(world, interval, wait, start, polls, slept, now, ends);
      polls := polls + 1;
      if left.Some? { return left.value, polls, slept, now, ends; }
    }
  }

  /** A challenge, with the times at which the CA was told that it is ready. */
  class Challenge {
    var signals: seq<nat>

    constructor ()
      ensures signals == []
    {
      signals := [];
    }

    method SetReady(now: nat, accepted: bool) returns (ok: bool)
      modifies this
      ensures signals == old(signals) + [now] && ok == accepted
    {
      signals := signals + [now];
      ok := accepted;
    }

    /** Wait, then tell the CA: once, and at the moment the wait is over. */
    method ConfirmThenSetReady(world: World, pollInterval: nat, wait: nat, start: nat, accepted: bool)
      returns (ok: bool, exit: Exit, polls: nat, slept: nat, end: nat, ghost ends: seq<nat>)
      modifies this
      ensures Waited(world, if pollInterval < 50_000_000 then 50_000_000 else pollInterval, wait, start, ends, exit, slept, end)
      ensures signals == old(signals) + [end] && ok == accepted && polls == |ends|
    {
      exit, polls, slept, end, ends := WaitForPropagation(world, pollInterval, wait, start);
      ok := SetReady(end, accepted);
    }
  }
}
