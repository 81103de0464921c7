/**
 What holds over every interleaving of the GE2D engine: submitted jobs run
 once, in order and under their own configuration, no wake-up is lost, and no
 context waits for more picks than there are contexts ahead of it.
 */
module Ge2dRuns {
  import opened Ge2dConfig
  import opened Ge2dQueue
  import opened Ge2dOrder
  import opened Ge2dDirty

  ghost predicate Inv(s: State) {
    RingInv(s) && WakeInv(s) && QueueInv(s) && DirtyInv(s)
  }

  lemma {:induction false} RunInv(states: seq<State>, steps: seq<Step>, n: nat)
    requires IsRun(states, steps) && n <= |steps|
    ensures Inv(states[n])
  {
    if n == 0 {
    } else {
      hide RingInv, WakeInv, QueueInv, DirtyInv, Next, Enabled;
      RunInv(states, steps, n - 1);
      var s, t := states[n - 1], steps[n - 1];
      RingStep(s, t);
      WakeStep(s, t);
      QueueStep(s, t);
      DirtyStep(s, t);
    }
  }

  // -------------------------------------------------------------------------
  // Jobs

  /** What a step queues for context `c`. */
  function Queues(s: State, t: Step, c: Id): (r: seq<Job>)
    requires Enabled(s, t)
  {
    if t == Enqueue(c) then var it := s.contexts[c].pc.item; [Job(it.cmd, it.config)] else []
  }

  /** What a step starts for context `c`. */
  function Starts(s: State, t: Step, c: Id): (r: seq<Job>)
    requires Enabled(s, t)
  {
    if t.Start? && s.mon.c == c then var it := s.contexts[c].work[0]; [Job(it.cmd, it.config)] else []
  }

  /** The jobs context `c` queued in the first `n` steps. */
  ghost function Submitted(states: seq<State>, steps: seq<Step>, n: nat, c: Id): (r: seq<Job>)
    requires IsRun(states, steps) && n <= |steps|
  {
    if n == 0 then [] else Submitted(states, steps, n - 1, c) + Queues(states[n - 1], steps[n - 1], c)
  }

  /** The jobs of context `c` the hardware was started on in the first `n` steps. */
  ghost function Executed(states: seq<State>, steps: seq<Step>, n: nat, c: Id): (r: seq<Job>)
    requires IsRun(states, steps) && n <= |steps|
  {
    if n == 0 then [] else Executed(states, steps, n - 1, c) + Starts(states[n - 1], steps[n - 1], c)
  }

  function Accepted(s: State, c: Id): (r: seq<Job>) {
    if c in s.contexts then s.contexts[c].accepted else []
  }

  function Started(s: State, c: Id): (r: seq<Job>) {
    if c in s.contexts then s.contexts[c].started else []
  }

  lemma StepHistory(s: State, t: Step, c: Id)
    requires Enabled(s, t)
    ensures Accepted(Next(s, t), c) == Accepted(s, c) + Queues(s, t, c)
    ensures Started(Next(s, t), c) == Started(s, c) + Starts(s, t, c)
  {
    hide Program, Covers, ThreadStep;
    if ByThread(t) {
      hide Next;
      NextOfThread(s, t);
      ThreadHistory(s, t, s.contexts[t.c]);
    }
  }

  lemma ThreadHistory(s: State, t: Step, x: Context)
    requires ByThread(t) && Enabled(s, t) && x == s.contexts[t.c]
    ensures var x' := ThreadStep(s, t, x);
            x'.accepted == x.accepted + Queues(s, t, t.c) && x'.started == x.started
  {
  }

  lemma {:induction false} HistoryIsTrace(states: seq<State>, steps: seq<Step>, n: nat, c: Id)
    requires IsRun(states, steps) && n <= |steps|
    ensures Submitted(states, steps, n, c) == Accepted(states[n], c)
    ensures Executed(states, steps, n, c) == Started(states[n], c)
  {
    hide Next, Enabled, Starts, Queues;
    if n == 0 {
    } else {
      HistoryIsTrace(states, steps, n - 1, c);
      StepHistory(states[n - 1], steps[n - 1], c);
    }
  }

  /**
   Exactly once, in order: what has run is an initial part of what was queued,
   the rest is waiting in the work list, and the items created with the
   context are each in exactly one of its two lists.
   */
  lemma ExactlyOnceInOrder(states: seq<State>, steps: seq<Step>, n: nat, c: Id)
    requires IsRun(states, steps) && n <= |steps|
    ensures Executed(states, steps, n, c) <= Submitted(states, steps, n, c)
    ensures c in states[n].contexts ==>
      var x := states[n].contexts[c];
      && Submitted(states, steps, n, c)
         == Executed(states, steps, n, c) + Jobs(Unstarted(x, HeadStarted(states[n].mon, c)))
      && multiset(x.free) + multiset(Ids(x.work)) == multiset(Upto(x.size))
  {
    RunInv(states, steps, n);
    HistoryIsTrace(states, steps, n, c);
    hide RingInv, WakeInv, DirtyInv, Submitted, Executed, IsRun;
    if c in states[n].contexts {
      assert ContextInv(states[n].contexts[c], states[n].mon, c);
    }
  }

  /**
   Every start finds all registers as the next job in submission order asks,
   although only flagged groups are written.
   */
  lemma JobsRunUnderTheirConfig(states: seq<State>, steps: seq<Step>, n: nat)
    requires IsRun(states, steps) && n < |steps| && steps[n].Start?
    ensures var c := states[n].mon.c;
            var done, all := Executed(states, steps, n, c), Submitted(states, steps, n, c);
            && |done| < |all|
            && Executed(states, steps, n + 1, c) == done + [all[|done|]]
            && states[n + 1].regs == all[|done|].config
  {
    var s := states[n];
    RunInv(states, steps, n);
    ExactlyOnceInOrder(states, steps, n, s.mon.c);
    StartProgramsAll(s);
  }

  /**
   A blocking submission that is not interrupted returns when its job, the
   context's latest, has run to completion.
   */
  lemma BlockingReturn(states: seq<State>, steps: seq<Step>, n: nat, c: Id)
    requires IsRun(states, steps) && n < |steps| && steps[n] == Return(c)
    requires states[n].contexts[c].pc.item.cmd.block
    ensures var it, done := states[n].contexts[c].pc.item, Executed(states, steps, n, c);
            && done != [] && done[|done| - 1] == Job(it.cmd, it.config)
            && done == Submitted(states, steps, n, c)
            && states[n].contexts[c].completed == |done|
  {
    hide RingInv, WakeInv, DirtyInv, Submitted, Executed;
    var x := states[n].contexts[c];
    RunInv(states, steps, n);
    HistoryIsTrace(states, steps, n, c);
    ExactlyOnceInOrder(states, steps, n, c);
    assert ContextInv(x, states[n].mon, c);
    assert |x.started| >= x.completed;
  }

  /** The step the monitor takes next, unless it is asleep. */
  function Due(m: Monitor): (t: Step)
    requires !m.Asleep?
  {
    match m
    case AtDown => Down
    case Scanning(_) => Scan
    case Picked(_) => Begin
    case Programming(_) => Start
    case Running(_) => Finish
    case Acking(_) => Ack
    case Moving(_) => Move
    case Leaving(_) => Leave
  }

  /** The monitor never meets an empty list or a missing context where it needs one. */
  lemma MonitorNeverStuck(states: seq<State>, steps: seq<Step>, n: nat)
    requires IsRun(states, steps) && n <= |steps| && !states[n].mon.Asleep?
    ensures Enabled(states[n], Due(states[n].mon))
  {
    hide WakeInv, DirtyInv, QueueInv, NoRepeats, NeedsWork;
    var s := states[n];
    RunInv(states, steps, n);
    if Processing(s.mon) && !s.mon.Leaving? {
      assert NeedsWork(s.mon, s.mon.c) by { Needs(s.mon); }
      WorkIsThere(s, s.mon.c);
    }
  }

  lemma Needs(m: Monitor)
    requires Processing(m) && !m.Leaving?
    ensures NeedsWork(m, m.c)
  {
  }

  /** A thread that found a free item still has it when it comes to queue it. */
  lemma FilledNeverStuck(states: seq<State>, steps: seq<Step>, n: nat, c: Id)
    requires IsRun(states, steps) && n <= |steps| && c in states[n].contexts && states[n].contexts[c].pc.Filled?
    ensures Enabled(states[n], Enqueue(c))
  {
    hide WakeInv, DirtyInv, RingInv, OrderInv, CallInv;
    RunInv(states, steps, n);
    assert ContextInv(states[n].contexts[c], states[n].mon, c);
  }

  // -------------------------------------------------------------------------
  // Wake-ups

  /**
   No lost wake-up: work whose submitter is past the semaphore keeps the
   semaphore up or is still ahead of the monitor, so a sleeping monitor leaves
   behind only work whose submitter has yet to wake it, and will.
   */
  lemma NoLostWakeup(states: seq<State>, steps: seq<Step>, n: nat, c: Id)
    requires IsRun(states, steps) && n <= |steps| && c in states[n].contexts && states[n].contexts[c].work != []
    ensures var s := states[n];
            var pc := s.contexts[c].pc;
            && (!StillToCheck(s.contexts[c]) ==> s.sem >= 1 || WillVisit(s, c))
            && (s.mon.Asleep? ==> StillToCheck(s.contexts[c]))
            && (s.mon.Asleep? && pc.Queued? ==>
                  Enabled(s, Check(c)) && Next(s, Check(c)).contexts[c].pc.Raising? && Next(s, Check(c)).mon.Asleep?)
            && (s.mon.Asleep? && pc.Raising? ==> Enabled(s, Up(c)) && WillVisit(Next(s, Up(c)), c))
  {
    hide QueueInv, DirtyInv, NoRepeats;
    RunInv(states, steps, n);
    assert states[n].ring[0..] == states[n].ring;
  }

  lemma VisitStep(s: State, t: Step, c: Id)
    requires RingInv(s) && Enabled(s, t) && c in s.contexts && s.contexts[c].work != [] && WillVisit(s, c)
    ensures var s' := Next(s, t);
            c in s'.contexts && (WillVisit(s', c) || s'.contexts[c].work == [])
  {
    hide Covers, Program, NoRepeats, ThreadStep;
    if ByThread(t) {
      NextOfThread(s, t);
      ThreadFrame(s, t, s.contexts[t.c]);
    }
    if s.mon.Scanning? && s.mon.i < |s.ring| {
      assert s.ring[s.mon.i..] == [s.ring[s.mon.i]] + s.ring[s.mon.i + 1..];
    }
    assert s.ring[0..] == s.ring;
  }

  /** Work ahead of the monitor stays ahead of it, away from `down`, until it is drained. */
  lemma {:induction false} VisitedBeforeSleep(states: seq<State>, steps: seq<Step>, i: nat, j: nat, c: Id)
    requires IsRun(states, steps) && i <= j <= |steps|
    requires c in states[i].contexts && WillVisit(states[i], c)
    requires forall k | i <= k <= j :: c in states[k].contexts ==> states[k].contexts[c].work != []
    ensures c in states[j].contexts && WillVisit(states[j], c) && !states[j].mon.AtDown? && !states[j].mon.Asleep?
    decreases j - i
  {
    if i < j {
      hide Inv, RingInv, WakeInv, QueueInv, DirtyInv, Next, Enabled, WillVisit;
      VisitedBeforeSleep(states, steps, i, j - 1, c);
      assert RingInv(states[j - 1]) by { RunRing(states, steps, j - 1); }
      VisitStep(states[j - 1], steps[j - 1], c);
    }
    VisitKeepsAwake(states[j], c);
  }

  lemma RunRing(states: seq<State>, steps: seq<Step>, n: nat)
    requires IsRun(states, steps) && n <= |steps|
    ensures RingInv(states[n])
  {
    RunInv(states, steps, n);
  }

  lemma VisitKeepsAwake(s: State, c: Id)
    requires WillVisit(s, c)
    ensures !s.mon.AtDown? && !s.mon.Asleep?
  {
  }

  // -------------------------------------------------------------------------
  // Waiting

  /** The place of `c` in the ring. */
  function Position(ring: seq<Id>, c: Id): (p: nat)
    requires c in ring
    ensures p < |ring| && ring[p] == c
  {
    if ring[0] == c then 0 else 1 + Position(ring[1..], c)
  }

  /** How many other picks can come before `c`: its place, counted round the ring if the scan is already past it. */
  function Wait(s: State, c: Id): (w: int)
    requires c in s.ring
  {
    var p := Position(s.ring, c);
    if s.mon.Scanning? && s.mon.i > p then p + |s.ring| - s.mon.i else p
  }

  predicate Picks(s: State, t: Step)
    requires Enabled(s, t)
  {
    t.Scan? && Next(s, t).mon.Picked?
  }

  lemma PositionIs(ring: seq<Id>, p: nat)
    requires NoRepeats(ring) && p < |ring|
    ensures Position(ring, ring[p]) == p
  {
  }

  /** Moving the sentinel behind place `i` keeps the cyclic order. */
  lemma PositionRotates(ring: seq<Id>, i: nat, c: Id)
    requires NoRepeats(ring) && c in ring && i < |ring|
    ensures var r, p := ring[i + 1..] + ring[..i + 1], Position(ring, c);
            c in r && Position(r, c) == if p > i then p - i - 1 else p + |ring| - i - 1
  {
  }

  lemma PositionAppends(ring: seq<Id>, c: Id, d: Id)
    requires NoRepeats(ring) && c in ring && d !in ring
    ensures c in ring + [d] && Position(ring + [d], c) == Position(ring, c)
  {
  }

  lemma WaitScan(s: State, c: Id)
    requires RingInv(s) && Enabled(s, Scan) && c in s.ring && s.contexts[c].work != []
    requires s.mon.i <= |s.ring|
    ensures var s' := Next(s, Scan);
            && c in s'.ring
            && (s'.mon != Picked(c) ==> Wait(s', c) <= Wait(s, c) - (if Picks(s, Scan) then 1 else 0))
  {
    hide Position, RingInv;
    assert NoRepeats(s.ring) by { RingParts(s); }
    if s.mon.i < |s.ring| {
      PositionRotates(s.ring, s.mon.i, c);
      PositionIs(s.ring, s.mon.i);
    }
  }

  lemma RingParts(s: State)
    requires RingInv(s)
    ensures NoRepeats(s.ring)
  {
  }

  /** No step makes a waiting context wait longer, and a pick of another makes its wait shorter. */
  lemma WaitStep(s: State, t: Step, c: Id)
    requires RingInv(s) && WakeInv(s) && Enabled(s, t) && c in s.ring && s.contexts[c].work != []
    ensures var s' := Next(s, t);
            && c in s'.ring
            && (!(Picks(s, t) && s'.mon == Picked(c)) ==> Wait(s', c) <= Wait(s, c) - (if Picks(s, t) then 1 else 0))
  {
    hide Position, NoRepeats, Covers, Program, ThreadStep, MonitorStep;
    if t.Scan? {
      WaitScan(s, c);
    } else if t.Create? {
      PositionAppends(s.ring, c, t.c);
    }
  }

  /** The picks among the steps from `i` to `j`. */
  ghost function PicksMade(states: seq<State>, steps: seq<Step>, i: nat, j: nat): (n: nat)
    requires IsRun(states, steps) && i <= j <= |steps|
    decreases j - i
  {
    if i == j then 0
    else PicksMade(states, steps, i, j - 1) + if Picks(states[j - 1], steps[j - 1]) then 1 else 0
  }

  lemma RunPlaces(states: seq<State>, steps: seq<Step>, n: nat, c: Id)
    requires IsRun(states, steps) && n <= |steps|
    ensures RingInv(states[n]) && WakeInv(states[n])
    ensures c in states[n].contexts ==> c in states[n].ring
    ensures c in states[n].ring ==> c in states[n].contexts && 0 <= Wait(states[n], c) < |states[n].ring|
  {
    hide QueueInv, DirtyInv, NoRepeats, Position;
    RunInv(states, steps, n);
  }

  /**
   Bounded waiting: while `c` has work and is passed over, every pick shortens
   its wait, so at most as many picks as its place in the ring come before it.
   */
  lemma {:induction false} BoundedWaiting(states: seq<State>, steps: seq<Step>, i: nat, j: nat, c: Id)
    requires IsRun(states, steps) && i <= j <= |steps| && c in states[i].contexts
    requires forall k | i <= k <= j :: c in states[k].contexts ==> states[k].contexts[c].work != []
    requires forall k | i <= k < j :: Picks(states[k], steps[k]) ==> states[k + 1].mon != Picked(c)
    ensures c in states[i].ring && c in states[j].ring
    ensures PicksMade(states, steps, i, j) + Wait(states[j], c) <= Wait(states[i], c)
    ensures PicksMade(states, steps, i, j) <= Wait(states[i], c) < |states[i].ring|
    decreases j - i
  {
    hide Inv, QueueInv, DirtyInv, WakeInv, RingInv, Next, Enabled, Position, Wait, Picks;
    RunPlaces(states, steps, i, c);
    if i < j {
      BoundedWaiting(states, steps, i, j - 1, c);
      RunPlaces(states, steps, j - 1, c);
      WaitStep(states[j - 1], steps[j - 1], c);
    }
    RunPlaces(states, steps, j, c);
  }
}
