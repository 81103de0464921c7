/**
 What becomes of each context's commands: items are never lost or doubled,
 commands start once and in submission order, and a blocking submission
 returns only when its command is done.
 */
module Ge2dOrder {
  import opened Options
  import opened Ge2dConfig
  import opened Ge2dQueue

  /** The command at the head of `c`'s work list has been started. */
  predicate HeadStarted(m: Monitor, c: Id) {
    m == Running(c) || m == Acking(c) || m == Moving(c)
  }

  predicate NeedsWork(m: Monitor, c: Id) {
    m == Picked(c) || m == Programming(c) || HeadStarted(m, c)
  }

  function Ids(items: seq<Item>): (r: seq<nat>)
    ensures |r| == |items| && forall i | 0 <= i < |r| :: r[i] == items[i].id
  {
    seq(|items|, i requires 0 <= i < |items| => items[i].id)
  }

  function Jobs(items: seq<Item>): (r: seq<Job>)
    ensures |r| == |items| && forall i | 0 <= i < |r| :: r[i] == Job(items[i].cmd, items[i].config)
  {
    seq(|items|, i requires 0 <= i < |items| => Job(items[i].cmd, items[i].config))
  }

  /** The queued items whose commands have not been started. */
  function Unstarted(x: Context, head: bool): (r: seq<Item>) {
    if head && x.work != [] then x.work[1..] else x.work
  }

  /** The thread is between queueing an item and leaving `ge2d_wq_add_work`. */
  predicate InCall(pc: Pc) {
    pc.Queued? || pc.Raising? || pc.Past?
  }

  ghost predicate ItemsInv(x: Context) {
    && multiset(x.free) + multiset(Ids(x.work)) == multiset(Upto(x.size))
    && (x.pc.Filled? ==> x.free != [] && x.pc.item.id == x.free[0])
    && forall id | id in x.pending :: id in Ids(x.work)
  }

  ghost predicate OrderInv(x: Context, m: Monitor, c: Id) {
    && (NeedsWork(m, c) ==> x.work != [])
    && x.accepted == x.started + Jobs(Unstarted(x, HeadStarted(m, c)))
    && |x.started| == x.completed + (if m == Running(c) then 1 else 0)
  }

  ghost predicate CallInv(x: Context, m: Monitor, c: Id) {
    && (m == Moving(c) && x.work != [] ==> x.work[0].id !in x.pending)
    && (InCall(x.pc) ==>
          && x.accepted != [] && x.accepted[|x.accepted| - 1] == Job(x.pc.item.cmd, x.pc.item.config)
          && (x.pc.item.id in x.pending ==> x.work != [] && x.work[|x.work| - 1].id == x.pc.item.id)
          && (x.pc.item.cmd.block && x.pc.item.id !in x.pending ==> x.completed == |x.accepted|))
  }

  ghost predicate ContextInv(x: Context, m: Monitor, c: Id) {
    ItemsInv(x) && OrderInv(x, m, c) && CallInv(x, m, c)
  }

  ghost predicate QueueInv(s: State) {
    forall c | c in s.contexts :: ContextInv(s.contexts[c], s.mon, c)
  }

  lemma IdsMove(x: Context)
    requires x.work != []
    ensures multiset(x.free + [x.work[0].id]) + multiset(Ids(x.work[1..])) == multiset(x.free) + multiset(Ids(x.work))
  {
    assert Ids(x.work) == [x.work[0].id] + Ids(x.work[1..]);
  }

  lemma IdsEnqueue(x: Context, it: Item)
    requires x.free != [] && it.id == x.free[0]
    ensures multiset(x.free[1..]) + multiset(Ids(x.work + [it])) == multiset(x.free) + multiset(Ids(x.work))
  {
    assert x.free == [x.free[0]] + x.free[1..];
    assert Ids(x.work + [it]) == Ids(x.work) + [it.id];
  }

  /** The items of a context are all different. */
  lemma IdsDistinct(x: Context, i: nat, j: nat)
    requires ItemsInv(x) && i < j < |x.work|
    ensures x.work[i].id != x.work[j].id
  {
    var ids := Ids(x.work);
    UptoOnce(x.size, ids[i]);
    assert ids == ids[..i] + ([ids[i]] + ids[i + 1..]);
    assert multiset(ids[i + 1..])[ids[i]] == 0;
    assert ids[i + 1..][j - i - 1] == ids[j];
  }

  lemma {:induction false} UptoOnce(n: nat, k: nat)
    ensures multiset(Upto(n))[k] <= 1
  {
    if n == 0 {
    } else {
      UptoOnce(n - 1, k);
      assert Upto(n) == Upto(n - 1) + [n - 1];
      if k == n - 1 { assert k !in Upto(n - 1); }
    }
  }

  // -------------------------------------------------------------------------
  // Steps of the context's thread

  lemma ItemsThread(s: State, t: Step, x: Context)
    requires ByThread(t) && Enabled(s, t) && x == s.contexts[t.c] && ItemsInv(x)
    ensures ItemsInv(ThreadStep(s, t, x))
  {
    if t.Enqueue? {
      var it := x.pc.item;
      IdsEnqueue(x, it);
      var x' := ThreadStep(s, t, x);
      assert Ids(x'.work) == Ids(x.work) + [it.id];
    }
  }

  lemma OrderThread(s: State, t: Step, x: Context, m: Monitor)
    requires ByThread(t) && Enabled(s, t) && x == s.contexts[t.c] && OrderInv(x, m, t.c)
    ensures OrderInv(ThreadStep(s, t, x), m, t.c)
  {
    if t.Enqueue? {
      var x', head := ThreadStep(s, t, x), HeadStarted(m, t.c);
      assert Unstarted(x', head) == Unstarted(x, head) + [x.pc.item];
      assert Jobs(Unstarted(x', head)) == Jobs(Unstarted(x, head)) + [Job(x.pc.item.cmd, x.pc.item.config)];
    }
  }

  lemma CallThread(s: State, t: Step, x: Context, m: Monitor)
    requires ByThread(t) && Enabled(s, t) && x == s.contexts[t.c] && ContextInv(x, m, t.c)
    ensures CallInv(ThreadStep(s, t, x), m, t.c)
  {
    hide ItemsInv, ThreadStep, CallInv, Jobs, Covers, Enabled;
    if t.Enqueue? { CallEnqueue(s, t, x, m); } else { CallOther(s, t, x, m); }
  }

  lemma CallOther(s: State, t: Step, x: Context, m: Monitor)
    requires ByThread(t) && !t.Enqueue? && Enabled(s, t) && x == s.contexts[t.c] && CallInv(x, m, t.c)
    ensures CallInv(ThreadStep(s, t, x), m, t.c)
  {
    hide Covers;
  }

  lemma CallEnqueue(s: State, t: Step, x: Context, m: Monitor)
    requires t.Enqueue? && Enabled(s, t) && x == s.contexts[t.c] && ItemsInv(x) && CallInv(x, m, t.c)
    requires m == Moving(t.c) ==> x.work != []
    ensures CallInv(ThreadStep(s, t, x), m, t.c)
  {
    hide ItemsInv, Ids;
    if m == Moving(t.c) {
      assert x.work[0].id == Ids(x.work)[0];
      FilledIsFree(x);
    }
  }

  lemma FilledIsFree(x: Context)
    requires ItemsInv(x) && x.pc.Filled?
    ensures x.pc.item.id !in Ids(x.work)
  {
    FreeNotQueued(x, 0);
  }

  lemma FreeNotQueued(x: Context, i: nat)
    requires ItemsInv(x) && i < |x.free|
    ensures x.free[i] !in Ids(x.work)
  {
    UptoOnce(x.size, x.free[i]);
    assert multiset(x.free)[x.free[i]] >= 1;
    assert multiset(Ids(x.work))[x.free[i]] == 0;
  }

  // -------------------------------------------------------------------------
  // Steps of the monitor

  lemma ItemsMonitor(s: State, t: Step, x: Context)
    requires ByMonitor(t) && Enabled(s, t) && x == s.contexts[s.mon.c]
    requires ItemsInv(x) && CallInv(x, s.mon, s.mon.c)
    ensures ItemsInv(MonitorStep(s, t, x))
  {
    var x' := MonitorStep(s, t, x);
    if t.Begin? {
      assert Ids(x'.work) == Ids(x.work);
    } else if t.Move? {
      IdsMove(x);
      assert Ids(x.work) == [x.work[0].id] + Ids(x'.work);
    }
  }

  lemma JobsStart(started: seq<Job>, work: seq<Item>)
    requires work != []
    ensures started + Jobs(work) == started + [Job(work[0].cmd, work[0].config)] + Jobs(work[1..])
  {
  }

  lemma JobsFlags(work: seq<Item>, flags: set<Group>)
    requires work != []
    ensures Jobs(work[0 := work[0].(flags := flags)]) == Jobs(work)
  {
  }

  lemma OrderMonitor(s: State, t: Step, x: Context)
    requires ByMonitor(t) && Enabled(s, t) && x == s.contexts[s.mon.c] && OrderInv(x, s.mon, s.mon.c)
    ensures OrderInv(MonitorStep(s, t, x), MonitorAfter(s, t), s.mon.c)
  {
    if t.Begin? {
      JobsFlags(x.work, ALL);
    } else if t.Start? {
      JobsStart(x.started, x.work);
    }
    hide Jobs;
  }

  lemma CallAck(s: State, t: Step, x: Context)
    requires t.Ack? && Enabled(s, t) && x == s.contexts[s.mon.c] && ContextInv(x, s.mon, s.mon.c)
    ensures CallInv(MonitorStep(s, t, x), MonitorAfter(s, t), s.mon.c)
  {
    hide ItemsInv, Jobs;
    if InCall(x.pc) && x.pc.item.id in x.pending && x.pc.item.id == x.work[0].id {
      if |x.work| > 1 { IdsDistinct(x, 0, |x.work| - 1); }
      assert |x.accepted| == |x.started|;
    }
  }

  lemma CallMonitor(s: State, t: Step, x: Context)
    requires ByMonitor(t) && Enabled(s, t) && x == s.contexts[s.mon.c] && ContextInv(x, s.mon, s.mon.c)
    ensures CallInv(MonitorStep(s, t, x), MonitorAfter(s, t), s.mon.c)
  {
    hide ItemsInv, Jobs, CallInv, OrderInv, MonitorStep, MonitorAfter, Enabled;
    if t.Ack? { CallAck(s, t, x); }
    else if t.Finish? { CallFinish(s, t, x); }
    else if t.Move? { CallMove(s, t, x); }
    else { CallStart(s, t, x); }
  }

  /** While a command runs, no blocking submitter has been released. */
  lemma CallFinish(s: State, t: Step, x: Context)
    requires t.Finish? && Enabled(s, t) && x == s.contexts[s.mon.c]
    requires OrderInv(x, s.mon, s.mon.c) && CallInv(x, s.mon, s.mon.c)
    ensures CallInv(MonitorStep(s, t, x), MonitorAfter(s, t), s.mon.c)
  {
  }

  lemma CallMove(s: State, t: Step, x: Context)
    requires t.Move? && Enabled(s, t) && x == s.contexts[s.mon.c] && CallInv(x, s.mon, s.mon.c)
    ensures CallInv(MonitorStep(s, t, x), MonitorAfter(s, t), s.mon.c)
  {
  }

  lemma CallStart(s: State, t: Step, x: Context)
    requires (t.Begin? || t.Start?) && Enabled(s, t) && x == s.contexts[s.mon.c] && CallInv(x, s.mon, s.mon.c)
    ensures CallInv(MonitorStep(s, t, x), MonitorAfter(s, t), s.mon.c)
  {
  }

  // -------------------------------------------------------------------------
  // All steps

  /** Other contexts do not notice a step. */
  lemma OtherContext(x: Context, m: Monitor, m': Monitor, c: Id)
    requires ContextInv(x, m, c) && !NeedsWork(m, c) && !NeedsWork(m', c)
    ensures ContextInv(x, m', c)
  {
  }

  lemma WorkIsThere(s: State, c: Id)
    requires QueueInv(s) && c in s.contexts && NeedsWork(s.mon, c)
    ensures s.contexts[c].work != []
  {
  }

  lemma QueueThread(s: State, t: Step)
    requires QueueInv(s) && Enabled(s, t) && ByThread(t)
    ensures QueueInv(Next(s, t))
  {
    hide ItemsInv, OrderInv, CallInv, ThreadStep, Covers, Next;
    NextOfThread(s, t);
    var s', x := Next(s, t), s.contexts[t.c];
    ItemsThread(s, t, x);
    OrderThread(s, t, x, s.mon);
    CallThread(s, t, x, s.mon);
    forall c | c in s'.contexts ensures ContextInv(s'.contexts[c], s'.mon, c) {
      if s'.mon != s.mon {
        OtherContext(s'.contexts[c], s.mon, s'.mon, c);
      }
    }
  }

  lemma QueueMonitor(s: State, t: Step)
    requires QueueInv(s) && Enabled(s, t) && ByMonitor(t)
    ensures QueueInv(Next(s, t))
  {
    hide ItemsInv, OrderInv, CallInv, MonitorStep, Program;
    var s', x := Next(s, t), s.contexts[s.mon.c];
    ItemsMonitor(s, t, x);
    OrderMonitor(s, t, x);
    CallMonitor(s, t, x);
    forall c | c in s'.contexts ensures ContextInv(s'.contexts[c], s'.mon, c) {
      if c != s.mon.c {
        OtherContext(s.contexts[c], s.mon, s'.mon, c);
      }
    }
  }

  lemma FreshContext(config: Config, items: nat, m: Monitor, c: Id)
    requires !NeedsWork(m, c)
    ensures ContextInv(Context(items, config, {}, [], Upto(items), {}, Outside, None, [], [], 0), m, c)
  {
  }

  lemma PickedContext(x: Context, m: Monitor, c: Id)
    requires ContextInv(x, m, c) && x.work != [] && !NeedsWork(m, c)
    ensures ContextInv(x, Picked(c), c)
  {
  }

  lemma QueueRest(s: State, t: Step)
    requires RingInv(s) && QueueInv(s) && Enabled(s, t) && !ByThread(t) && !ByMonitor(t)
    ensures QueueInv(Next(s, t))
  {
    hide ContextInv, NoRepeats;
    var s' := Next(s, t);
    forall c | c in s'.contexts ensures ContextInv(s'.contexts[c], s'.mon, c) {
      if t.Create? && c == t.c {
        FreshContext(t.config, t.items, s.mon, c);
      } else if s'.mon == Picked(c) && t.Scan? {
        PickedContext(s.contexts[c], s.mon, c);
      } else if s'.mon != s.mon {
        OtherContext(s.contexts[c], s.mon, s'.mon, c);
      }
    }
  }

  lemma QueueStep(s: State, t: Step)
    requires RingInv(s) && QueueInv(s) && Enabled(s, t)
    ensures QueueInv(Next(s, t))
  {
    hide QueueInv, RingInv, Next, Enabled;
    if ByThread(t) { QueueThread(s, t); } else if ByMonitor(t) { QueueMonitor(s, t); } else { QueueRest(s, t); }
  }
}
