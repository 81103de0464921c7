/**
 The GE2D work-queue engine as a state machine: one submitting thread per
 context, the monitor thread, the wake-up semaphore and the hardware, each
 taking one step at a time in any order.
 */
module Ge2dQueue {
  import opened Options
  import opened Ge2dConfig

  type Id = nat

  /** A drawing command; `block` is its `wait_done_flag` at submission. */
  datatype Cmd = Cmd(tag: int, block: bool)

  datatype Item = Item(id: nat, cmd: Cmd, config: Config, flags: set<Group>)

  /** What a submission asks for: a command under the configuration of that moment. */
  datatype Job = Job(cmd: Cmd, config: Config)

  /**
   Where a context's thread stands in `ge2d_wq_add_work`: outside it, with an
   item filled, with the item queued, decided to raise the semaphore, or past
   the semaphore.
   */
  datatype Pc = Outside | Filled(item: Item) | Queued(item: Item) | Raising(item: Item) | Past(item: Item)

  /**
   A context of `size` items. `pending` holds the items whose `wait_done_flag` is set. The
   last four fields are history: the configuration last started, the jobs
   accepted and started, and how many were waited for.
   */
  datatype Context = Context(
    size: nat, config: Config, flags: set<Group>, work: seq<Item>, free: seq<nat>, pending: set<nat>, pc: Pc,
    ran: Option<Config>, accepted: seq<Job>, started: seq<Job>, completed: nat)

  /**
   Where the monitor stands: before `down`, asleep in it, looking at place `i`
   of the ring, or inside `ge2d_process_work_queue` for a context.
   */
  datatype Monitor = AtDown | Asleep | Scanning(i: nat) | Picked(c: Id) | Programming(c: Id)
                   | Running(c: Id) | Acking(c: Id) | Moving(c: Id) | Leaving(c: Id)

  /** `ring` is the process queue read from its head; `regs` what the registers hold. */
  datatype State = State(contexts: map<Id, Context>, ring: seq<Id>, sem: nat, last: Option<Id>, mon: Monitor,
                         regs: Config)

  datatype Step =
    | Create(c: Id, config: Config, items: nat)
    | Configure(c: Id, config: Config, flags: set<Group>)
    | Fill(c: Id, cmd: Cmd) | Enqueue(c: Id) | Check(c: Id) | Up(c: Id) | Return(c: Id) | Signal(c: Id)
    | Down | Interrupt | Scan | Begin | Start | Finish | Ack | Move | Leave

  /** The monitor is inside `ge2d_process_work_queue`. */
  predicate Processing(m: Monitor) {
    m.Picked? || m.Programming? || m.Running? || m.Acking? || m.Moving? || m.Leaving?
  }

  predicate Enabled(s: State, t: Step) {
    match t
    case Create(c, _, _) => c !in s.contexts && !s.mon.Scanning?
    case Configure(c, config, flags) =>
      && c in s.contexts && s.contexts[c].pc.Outside?
      && s.contexts[c].flags <= flags && Covers(s.contexts[c].config, config, flags)
    case Fill(c, _) => c in s.contexts && s.contexts[c].pc.Outside? && s.contexts[c].free != []
    case Enqueue(c) => c in s.contexts && s.contexts[c].pc.Filled? && s.contexts[c].free != []
    case Check(c) => c in s.contexts && s.contexts[c].pc.Queued?
    case Up(c) => c in s.contexts && s.contexts[c].pc.Raising?
    case Return(c) => c in s.contexts && s.contexts[c].pc.Past? && s.contexts[c].pc.item.id !in s.contexts[c].pending
    case Signal(c) => c in s.contexts && s.contexts[c].pc.Past?
    case Down => s.mon.AtDown?
    case Interrupt => s.mon.AtDown? || s.mon.Asleep?
    case Scan => s.mon.Scanning? && forall c | c in s.ring :: c in s.contexts
    case Begin => s.mon.Picked? && s.mon.c in s.contexts && s.contexts[s.mon.c].work != []
    case Start => s.mon.Programming? && s.mon.c in s.contexts && s.contexts[s.mon.c].work != []
    case Finish => s.mon.Running? && s.mon.c in s.contexts
    case Ack => s.mon.Acking? && s.mon.c in s.contexts && s.contexts[s.mon.c].work != []
    case Move => s.mon.Moving? && s.mon.c in s.contexts && s.contexts[s.mon.c].work != []
    case Leave => s.mon.Leaving?
  }

  function Upto(n: nat): (s: seq<nat>)
    ensures |s| == n && forall i | 0 <= i < n :: s[i] == i
  {
    seq(n, i => i)
  }

  /** A step of context `c`'s own thread, as far as the context goes. */
  function ThreadStep(s: State, t: Step, x: Context): (x': Context)
    requires t.Configure? || t.Fill? || t.Enqueue? || t.Check? || t.Up? || t.Return? || t.Signal?
    requires t.c in s.contexts && x == s.contexts[t.c] && Enabled(s, t)
  {
    match t
    case Configure(_, config, flags) => x.(config := config, flags := flags)
    case Fill(_, cmd) => x.(pc := Filled(Item(x.free[0], cmd, x.config, x.flags)), flags := {})
    case Enqueue(_) =>
      var it := x.pc.item;
      x.(work := x.work + [it], free := x.free[1..], pc := Queued(it),
         pending := if it.cmd.block then x.pending + {it.id} else x.pending,
         accepted := x.accepted + [Job(it.cmd, it.config)])
    case Check(_) => x.(pc := if s.sem == 0 then Raising(x.pc.item) else Past(x.pc.item))
    case Up(_) => x.(pc := Past(x.pc.item))
    case Return(_) => x.(pc := Outside)
    case Signal(_) => x.(pc := Outside)
  }

  /** A step of the monitor inside `ge2d_process_work_queue`, as far as its context goes. */
  function MonitorStep(s: State, t: Step, x: Context): (x': Context)
    requires t.Begin? || t.Start? || t.Finish? || t.Ack? || t.Move?
    requires Enabled(s, t) && x == s.contexts[s.mon.c]
  {
    match t
    case Begin =>
      if s.last == Some(s.mon.c) then x else x.(work := x.work[0 := x.work[0].(flags := ALL)])
    case Start => x.(ran := Some(x.work[0].config), started := x.started + [Job(x.work[0].cmd, x.work[0].config)])
    case Finish => x.(completed := x.completed + 1)
    case Ack => x.(pending := x.pending - {x.work[0].id})
    case Move => x.(work := x.work[1..], free := x.free + [x.work[0].id])
  }

  /** Where such a step takes the monitor: the loop ends when the list has no further item. */
  function MonitorAfter(s: State, t: Step): (m: Monitor)
    requires t.Begin? || t.Start? || t.Finish? || t.Ack? || t.Move?
    requires Enabled(s, t)
  {
    var c := s.mon.c;
    match t
    case Begin => Programming(c)
    case Start => Running(c)
    case Finish => Acking(c)
    case Ack => Moving(c)
    case Move => if |s.contexts[c].work| == 1 then Leaving(c) else Programming(c)
  }

  function Next(s: State, t: Step): (s': State)
    requires Enabled(s, t)
  {
    match t
    case Create(c, config, items) =>
      s.(contexts := s.contexts[c := Context(items, config, {}, [], Upto(items), {}, Outside, None, [], [], 0)],
         ring := s.ring + [c])
    case Down => if s.sem > 0 then s.(sem := s.sem - 1, mon := Scanning(0)) else s.(mon := Asleep)
    case Interrupt => s.(mon := Scanning(0))
    case Scan =>
      var i := s.mon.i;
      if i >= |s.ring| then s.(mon := AtDown)
      else if s.contexts[s.ring[i]].work == [] then s.(mon := Scanning(i + 1))
      else s.(mon := Picked(s.ring[i]), ring := s.ring[i + 1..] + s.ring[..i + 1])
    case Leave => s.(mon := Scanning(0), last := Some(s.mon.c))
    case Start =>
      var it := s.contexts[s.mon.c].work[0];
      s.(contexts := s.contexts[s.mon.c := MonitorStep(s, t, s.contexts[s.mon.c])],
         regs := Program(s.regs, it.config, it.flags), mon := MonitorAfter(s, t))
    case Begin | Finish | Ack | Move =>
      s.(contexts := s.contexts[s.mon.c := MonitorStep(s, t, s.contexts[s.mon.c])], mon := MonitorAfter(s, t))
    case Up(c) =>
      var s1 := s.(contexts := s.contexts[c := ThreadStep(s, t, s.contexts[c])]);
      if s.mon.Asleep? then s1.(mon := Scanning(0)) else s1.(sem := s.sem + 1)
    case _ => s.(contexts := s.contexts[t.c := ThreadStep(s, t, s.contexts[t.c])])
  }

  predicate ByThread(t: Step) {
    t.Configure? || t.Fill? || t.Enqueue? || t.Check? || t.Up? || t.Return? || t.Signal?
  }

  predicate ByMonitor(t: Step) {
    t.Begin? || t.Start? || t.Finish? || t.Ack? || t.Move?
  }

  /** A thread's step changes its own context, and of the rest only the semaphore or a sleeping monitor. */
  lemma NextOfThread(s: State, t: Step)
    requires Enabled(s, t) && ByThread(t)
    ensures t.c in s.contexts
    ensures var s' := Next(s, t);
            && s'.contexts == s.contexts[t.c := ThreadStep(s, t, s.contexts[t.c])]
            && s'.ring == s.ring && s'.last == s.last && s'.regs == s.regs
            && (s'.mon == s.mon || (s.mon == Asleep && s'.mon == Scanning(0)))
  {
  }

  /** After `ge2d_wq_init`: no context, semaphore 1, the monitor about to take it. */
  predicate Init(s: State) {
    s.contexts == map[] && s.ring == [] && s.sem == 1 && s.last == None && s.mon == AtDown
  }

  ghost predicate IsRun(states: seq<State>, steps: seq<Step>) {
    && |states| == |steps| + 1 && Init(states[0])
    && forall i | 0 <= i < |steps| :: Enabled(states[i], steps[i]) && states[i + 1] == Next(states[i], steps[i])
  }

  // -------------------------------------------------------------------------
  // The ring

  ghost predicate NoRepeats<T>(s: seq<T>) {
    forall i, j | 0 <= i < j < |s| :: s[i] != s[j]
  }

  /** The ring holds every context once; the monitor works on one of them. */
  ghost predicate RingInv(s: State) {
    && NoRepeats(s.ring)
    && (forall c :: c in s.ring <==> c in s.contexts)
    && (Processing(s.mon) ==> s.mon.c in s.contexts)
    && (s.last.Some? ==> s.last.value in s.contexts)
  }

  lemma RotationKeeps<T>(s: seq<T>, k: nat)
    requires NoRepeats(s) && k <= |s|
    ensures var r := s[k..] + s[..k];
            NoRepeats(r) && forall x :: x in r <==> x in s
  {
  }

  lemma AppendKeeps<T>(s: seq<T>, x: T)
    requires NoRepeats(s) && x !in s
    ensures NoRepeats(s + [x])
  {
  }

  lemma RingMoves(s: State, t: Step)
    requires RingInv(s) && Enabled(s, t) && (t.Scan? || t.Create?)
    ensures RingInv(Next(s, t))
  {
    hide NoRepeats;
    if t.Create? {
      AppendKeeps(s.ring, t.c);
    } else if s.mon.i < |s.ring| {
      RotationKeeps(s.ring, s.mon.i + 1);
    }
  }

  lemma RingStays(s: State, t: Step)
    requires RingInv(s) && Enabled(s, t) && !t.Scan? && !t.Create?
    ensures RingInv(Next(s, t))
  {
    hide NoRepeats, ThreadStep, MonitorStep;
    assert Next(s, t).ring == s.ring;
  }

  lemma RingStep(s: State, t: Step)
    requires RingInv(s) && Enabled(s, t)
    ensures RingInv(Next(s, t))
  {
    if t.Scan? || t.Create? { RingMoves(s, t); } else { RingStays(s, t); }
  }

  // -------------------------------------------------------------------------
  // Wake-up

  /** The thread of the context has still to look at the semaphore for what it queued. */
  predicate StillToCheck(x: Context) {
    x.pc.Queued? || x.pc.Raising?
  }

  /** The monitor will come to context `c` before it next goes to `down`. */
  predicate WillVisit(s: State, c: Id) {
    Processing(s.mon) || (s.mon.Scanning? && s.mon.i <= |s.ring| && c in s.ring[s.mon.i..])
  }

  ghost predicate WakeInv(s: State) {
    && (s.mon.Asleep? ==> s.sem == 0)
    && (s.mon.Scanning? ==> s.mon.i <= |s.ring|)
    && forall c | c in s.contexts && s.contexts[c].work != [] && !StillToCheck(s.contexts[c]) ::
         s.sem >= 1 || WillVisit(s, c)
  }

  lemma WakeThread(s: State, t: Step)
    requires RingInv(s) && WakeInv(s) && Enabled(s, t) && ByThread(t)
    ensures WakeInv(Next(s, t))
  {
    var s' := Next(s, t);
    forall c | c in s'.contexts && s'.contexts[c].work != [] && !StillToCheck(s'.contexts[c])
      ensures s'.sem >= 1 || WillVisit(s', c)
    {
      assert s'.ring == s.ring && c in s.ring;
      assert !t.Up? ==> s'.mon == s.mon;
      if t.Up? && s.mon.Asleep? {
        assert s'.ring[0..] == s'.ring;
      } else if c != t.c {
        assert s'.contexts[c] == s.contexts[c];
      }
    }
  }

  lemma WakeMonitor(s: State, t: Step)
    requires RingInv(s) && WakeInv(s) && Enabled(s, t) && ByMonitor(t)
    ensures WakeInv(Next(s, t))
  {
  }

  lemma WakeRestart(s: State, t: Step)
    requires RingInv(s) && WakeInv(s) && Enabled(s, t) && (t.Down? || t.Interrupt? || t.Leave?)
    ensures WakeInv(Next(s, t))
  {
    assert s.ring[0..] == s.ring;
  }

  lemma WakeScan(s: State, t: Step)
    requires RingInv(s) && WakeInv(s) && Enabled(s, t) && t.Scan?
    ensures WakeInv(Next(s, t))
  {
    var s', i := Next(s, t), s.mon.i;
    forall c | c in s'.contexts && s'.contexts[c].work != [] && !StillToCheck(s'.contexts[c])
      ensures s'.sem >= 1 || WillVisit(s', c)
    {
      if s.sem == 0 {
        assert c in s.ring[i..];
        assert s.ring[i..] == [s.ring[i]] + s.ring[i + 1..];
      }
    }
  }

  lemma WakeCreate(s: State, t: Step)
    requires RingInv(s) && WakeInv(s) && Enabled(s, t) && t.Create?
    ensures WakeInv(Next(s, t))
  {
  }

  lemma WakeStep(s: State, t: Step)
    requires RingInv(s) && WakeInv(s) && Enabled(s, t)
    ensures WakeInv(Next(s, t))
  {
    hide WakeInv, RingInv, Next, Enabled;
    if ByThread(t) { WakeThread(s, t); }
    else if ByMonitor(t) { WakeMonitor(s, t); }
    else if t.Create? { WakeCreate(s, t); }
    else if t.Scan? { WakeScan(s, t); }
    else { WakeRestart(s, t); }
  }
}
