/**
 The update flags: although only flagged groups are written, every command
 starts with all registers as its own configuration demands.
 */
module Ge2dDirty {
  import opened Options
  import opened Ge2dConfig
  import opened Ge2dQueue
  import opened Ge2dOrder

  /** The flags cover what changed since `prev`, if there was anything before. */
  predicate Follows(prev: Option<Config>, config: Config, flags: set<Group>) {
    prev.Some? ==> Covers(prev.value, config, flags)
  }

  /** Each item's flags cover the difference from the one before it. */
  ghost predicate Linked(prev: Option<Config>, items: seq<Item>)
    decreases |items|
  {
    items == [] || (Follows(prev, items[0].config, items[0].flags) && Linked(Some(items[0].config), items[1..]))
  }

  function EndOf(prev: Option<Config>, items: seq<Item>): (r: Option<Config>) {
    if items == [] then prev else Some(items[|items| - 1].config)
  }

  /** From the configuration last started, through the queue, to the context's own. */
  ghost predicate ChainInv(x: Context, head: bool) {
    var u := Unstarted(x, head);
    && Linked(x.ran, u)
    && if x.pc.Filled? then
         Follows(EndOf(x.ran, u), x.pc.item.config, x.pc.item.flags) && x.pc.item.config == x.config
       else Follows(EndOf(x.ran, u), x.config, x.flags)
  }

  /** What the registers hold, by where the monitor stands. */
  ghost predicate RegsInv(s: State) {
    match s.mon
    case Programming(c) =>
      c in s.contexts && s.contexts[c].work != [] ==>
        s.contexts[c].work[0].flags == ALL || s.contexts[c].ran == Some(s.regs)
    case Running(_) | Acking(_) | Moving(_) | Leaving(_) =>
      s.mon.c in s.contexts ==> s.contexts[s.mon.c].ran == Some(s.regs)
    case _ => s.last.Some? && s.last.value in s.contexts ==> s.contexts[s.last.value].ran == Some(s.regs)
  }

  ghost predicate DirtyInv(s: State) {
    && (forall c | c in s.contexts :: ChainInv(s.contexts[c], HeadStarted(s.mon, c)))
    && RegsInv(s)
  }

  lemma CoversItself(c: Config, flags: set<Group>)
    ensures Covers(c, c, flags)
  {
  }

  lemma CoversAll(a: Config, b: Config)
    ensures Covers(a, b, ALL)
  {
  }

  lemma {:induction false} LinkedAppend(prev: Option<Config>, items: seq<Item>, it: Item)
    requires Linked(prev, items) && Follows(EndOf(prev, items), it.config, it.flags)
    ensures Linked(prev, items + [it])
    decreases |items|
  {
    if items == [] {
      assert [it][1..] == [];
    } else {
      LinkedAppend(Some(items[0].config), items[1..], it);
      assert (items + [it])[1..] == items[1..] + [it];
    }
  }

  lemma ChainThread(s: State, t: Step, x: Context, head: bool)
    requires ByThread(t) && Enabled(s, t) && x == s.contexts[t.c] && ChainInv(x, head)
    requires head ==> x.work != []
    ensures ChainInv(ThreadStep(s, t, x), head)
  {
    hide Covers;
    var u := Unstarted(x, head);
    match t
    case Configure(_, config, flags) =>
      if EndOf(x.ran, u).Some? { CoversTrans(EndOf(x.ran, u).value, x.config, config, x.flags, flags); }
    case Enqueue(_) =>
      LinkedAppend(x.ran, u, x.pc.item);
      assert Unstarted(ThreadStep(s, t, x), head) == u + [x.pc.item];
      CoversItself(x.config, x.flags);
    case _ =>
  }

  lemma ChainBegin(x: Context)
    requires ChainInv(x, false) && x.work != []
    ensures ChainInv(x.(work := x.work[0 := x.work[0].(flags := ALL)]), false)
  {
  }

  lemma ChainMonitor(s: State, t: Step, x: Context)
    requires ByMonitor(t) && Enabled(s, t) && x == s.contexts[s.mon.c]
    requires ChainInv(x, HeadStarted(s.mon, s.mon.c))
    ensures ChainInv(MonitorStep(s, t, x), HeadStarted(MonitorAfter(s, t), s.mon.c))
  {
    hide Covers;
    if t.Begin? {
      ChainBegin(x);
    }
  }

  /** The heart of it: the flagged writes leave the registers exactly as the command's configuration. */
  lemma StartProgramsAll(s: State)
    requires DirtyInv(s) && Enabled(s, Start)
    ensures Next(s, Start).regs == s.contexts[s.mon.c].work[0].config
  {
    hide Covers, Program;
    var x := s.contexts[s.mon.c];
    var it := x.work[0];
    assert ChainInv(x, false);
    if it.flags == ALL { CoversAll(s.regs, it.config); }
    ProgramIsComplete(s.regs, it.config, it.flags);
  }

  /** A context's thread leaves the head of its work list and what last ran alone. */
  lemma ThreadFrame(s: State, t: Step, x: Context)
    requires ByThread(t) && Enabled(s, t) && x == s.contexts[t.c]
    ensures var x' := ThreadStep(s, t, x);
            x'.ran == x.ran && (x.work != [] ==> x'.work != [] && x'.work[0] == x.work[0])
  {
  }

  lemma RegsThread(s: State, t: Step)
    requires QueueInv(s) && RegsInv(s) && Enabled(s, t) && ByThread(t)
    ensures RegsInv(Next(s, t))
  {
    hide Next, ThreadStep, QueueInv, Covers, Enabled;
    NextOfThread(s, t);
    ThreadFrame(s, t, s.contexts[t.c]);
    if s.mon == Programming(t.c) { WorkIsThere(s, t.c); }
  }

  lemma DirtyThread(s: State, t: Step)
    requires QueueInv(s) && DirtyInv(s) && Enabled(s, t) && ByThread(t)
    ensures DirtyInv(Next(s, t))
  {
    hide Next, ThreadStep, QueueInv, ChainInv, Covers, RegsInv, Enabled;
    NextOfThread(s, t);
    var s', x := Next(s, t), s.contexts[t.c];
    RegsThread(s, t);
    if HeadStarted(s.mon, t.c) { WorkIsThere(s, t.c); }
    ChainThread(s, t, x, HeadStarted(s.mon, t.c));
    forall c | c in s'.contexts ensures ChainInv(s'.contexts[c], HeadStarted(s'.mon, c)) {}
  }

  lemma DirtyMonitor(s: State, t: Step)
    requires DirtyInv(s) && Enabled(s, t) && ByMonitor(t)
    ensures DirtyInv(Next(s, t))
  {
    hide ChainInv, Covers, Program;
    var s', x := Next(s, t), s.contexts[s.mon.c];
    ChainMonitor(s, t, x);
    if t.Start? { StartProgramsAll(s); }
    forall c | c in s'.contexts ensures ChainInv(s'.contexts[c], HeadStarted(s'.mon, c)) {}
  }

  lemma RegsRest(s: State, t: Step)
    requires RingInv(s) && RegsInv(s) && Enabled(s, t) && !ByThread(t) && !ByMonitor(t)
    ensures RegsInv(Next(s, t))
  {
    hide NoRepeats, Covers;
  }

  lemma DirtyRest(s: State, t: Step)
    requires RingInv(s) && DirtyInv(s) && Enabled(s, t) && !ByThread(t) && !ByMonitor(t)
    ensures DirtyInv(Next(s, t))
  {
    hide NoRepeats, Covers, ChainInv, RegsInv, Program;
    RegsRest(s, t);
    var s' := Next(s, t);
    forall c | c in s'.contexts ensures ChainInv(s'.contexts[c], HeadStarted(s'.mon, c)) {
      if t.Create? && c == t.c {
        FreshChain(t.config, t.items, HeadStarted(s'.mon, c));
      } else {
        assert ChainInv(s.contexts[c], HeadStarted(s.mon, c));
      }
    }
  }

  lemma FreshChain(config: Config, items: nat, head: bool)
    ensures ChainInv(Context(items, config, {}, [], Upto(items), {}, Outside, None, [], [], 0), head)
  {
  }

  lemma DirtyStep(s: State, t: Step)
    requires RingInv(s) && QueueInv(s) && DirtyInv(s) && Enabled(s, t)
    ensures DirtyInv(Next(s, t))
  {
    hide DirtyInv, QueueInv, RingInv, Next, Enabled;
    if ByThread(t) { DirtyThread(s, t); } else if ByMonitor(t) { DirtyMonitor(s, t); } else { DirtyRest(s, t); }
  }
}
