/**
 The GE2D work queues as the driver's code updates them in place. The ghost
 `trace` says which steps of the state machine each call amounts to when no
 other thread comes in between, and the calls are proved to compute what the
 code is for: find the next queue in turn, and drain it in order.
 */
module Ge2dEngine {
  import opened Options
  import opened Ge2dConfig
  import opened Ge2dQueue
  import opened Ge2dOrder
  import opened Ge2dDirty
  import opened Ge2dRuns

  /** The state after some steps, if all of them can be taken. */
  ghost function After(s: State, steps: seq<Step>): (r: Option<State>) {
    if steps == [] then Some(s)
    else
      var n := |steps| - 1;
      var r := After(s, steps[..n]);
      if r.Some? && Enabled(r.value, steps[n]) then Some(Next(r.value, steps[n])) else None
  }

  lemma AfterNext(s: State, steps: seq<Step>, t: Step)
    requires After(s, steps).Some? && Enabled(After(s, steps).value, t)
    ensures After(s, steps + [t]) == Some(Next(After(s, steps).value, t))
  {
  }

  lemma InvStep(s: State, t: Step)
    requires Inv(s) && Enabled(s, t)
    ensures Inv(Next(s, t))
  {
    hide RingInv, WakeInv, QueueInv, DirtyInv, Next, Enabled;
    RingStep(s, t);
    WakeStep(s, t);
    QueueStep(s, t);
    DirtyStep(s, t);
  }

  lemma InitInv(s: State)
    requires Init(s)
    ensures Inv(s)
  {
  }

  /** A context whose first item has been started, waited for, acknowledged and moved to the free list. */
  function Processed(x: Context): (r: Context)
    requires x.work != []
  {
    var it := x.work[0];
    x.(ran := Some(it.config), started := x.started + [Job(it.cmd, it.config)], completed := x.completed + 1,
       pending := x.pending - {it.id}, work := x.work[1..], free := x.free + [it.id])
  }

  /** A context whose whole work list has been processed. */
  function Drained(x: Context): (r: Context)
    decreases |x.work|
  {
    if x.work == [] then x else Drained(Processed(x))
  }

  /** Draining starts exactly the queued jobs, in order, and returns every item to the free list. */
  lemma {:induction false} DrainedIs(x: Context)
    ensures var d := Drained(x);
            && d.work == [] && d.free == x.free + Ids(x.work)
            && d.started == x.started + Jobs(x.work) && d.completed == x.completed + |x.work|
    decreases |x.work|
  {
    hide Ids, Jobs;
    if x.work == [] {
    } else {
      DrainedIs(Processed(x));
      IdsFirst(x.work);
      JobsStart(x.started, x.work);
    }
  }

  /** No submitter is left waiting, and the rest of the context stays as it was. */
  lemma {:induction false} DrainedRest(x: Context)
    ensures var d := Drained(x);
            && d.pending == x.pending - (set id | id in Ids(x.work)) && d.ran == EndOf(x.ran, x.work)
            && d.size == x.size && d.config == x.config && d.flags == x.flags && d.pc == x.pc
            && d.accepted == x.accepted
    decreases |x.work|
  {
    hide Ids, Jobs;
    if x.work == [] {
    } else {
      DrainedRest(Processed(x));
      IdsFirst(x.work);
    }
  }

  lemma IdsFirst(work: seq<Item>)
    requires work != []
    ensures Ids(work) == [work[0].id] + Ids(work[1..])
    ensures (set id | id in Ids(work)) == {work[0].id} + set id | id in Ids(work[1..])
  {
  }

  lemma DrainedIgnoresFlags(x: Context, flags: set<Group>)
    requires x.work != []
    ensures Drained(x.(work := x.work[0 := x.work[0].(flags := flags)])) == Drained(x)
  {
  }

  /** The contexts that have work. */
  function Busy(contexts: map<Id, Context>): (r: set<Id>)
    ensures r <= contexts.Keys
  {
    set c | c in contexts && contexts[c].work != []
  }

  function AllDrained(contexts: map<Id, Context>): (r: map<Id, Context>) {
    map c | c in contexts :: Drained(contexts[c])
  }

  class Engine {
    const platform: Platform
    const layout: Layout
    var contexts: map<Id, Context>
    var ring: seq<Id>
    var sem: nat
    var last: Option<Id>
    var regs: Config
    var mon: Monitor
    ghost var start: State
    ghost var trace: seq<Step>

    ghost function View(): (s: State)
      reads this
    {
      State(contexts, ring, sem, last, mon, regs)
    }

    /** The fields are what the machine holds after `trace`. */
    ghost predicate Valid()
      reads this
    {
      layout.Valid() && Init(start) && After(start, trace) == Some(View()) && Inv(View())
    }

    /** `ge2d_wq_init` */
    constructor (platform: Platform, layout: Layout, config: Config)
      requires layout.Valid()
      ensures this.platform == platform && this.layout == layout
      ensures Valid() && contexts == map[] && ring == [] && sem == 1 && mon == AtDown && trace == []
    {
      this.platform, this.layout := platform, layout;
      contexts, ring, sem, last, regs := map[], [], 1, None, config;
      mon, start, trace := AtDown, State(map[], [], 1, None, AtDown, config), [];
      new;
      InitInv(start);
    }

    /** Records a step the fields have just taken. */
    ghost method Took(t: Step, was: State)
      requires layout.Valid() && Init(start) && After(start, trace) == Some(was) && Inv(was)
      requires Enabled(was, t) && View() == Next(was, t)
      modifies this`trace
      ensures Valid() && trace == old(trace) + [t]
    {
      hide After, Inv, Next, Enabled;
      AfterNext(start, trace, t);
      InvStep(was, t);
      trace := trace + [t];
    }

    /** `get_next_work_queue`: the first context in the ring with work, with the list head moved behind it. */
    method NextWorkQueue() returns (found: Option<Id>)
      requires Valid() && mon == Scanning(0)
      modifies this`ring, this`mon, this`trace
      ensures Valid()
      ensures found.Some? ==>
        exists i :: && 0 <= i < |old(ring)| && old(ring)[i] == found.value && contexts[found.value].work != []
                    && (forall j | 0 <= j < i :: contexts[old(ring)[j]].work == [])
                    && ring == old(ring)[i + 1..] + old(ring)[..i + 1]
      ensures found.Some? ==> mon == Picked(found.value) && found.value in Busy(contexts)
      ensures found.None? ==> mon == AtDown && ring == old(ring) && Busy(contexts) == {}
    {
      hide Next, After, Inv;
      ghost var was := View();
      RingOf();
      var i := 0;
      while i < |ring|
        invariant 0 <= i <= |ring| && ring == old(ring)
        invariant Valid() && mon == Scanning(i)
        invariant forall j | 0 <= j < i :: contexts[ring[j]].work == []
      {
        was := View();
        ScanStep(was);
        var c := ring[i];
        if contexts[c].work != [] {
          ring := ring[i + 1..] + ring[..i + 1];
          mon := Picked(c);
          Took(Scan, was);
          return Some(c);
        }
        mon := Scanning(i + 1);
        Took(Scan, was);
        i := i + 1;
      }
      was := View();
      ScanStep(was);
      mon := AtDown;
      Took(Scan, was);
      return None;
    }

    /** One turn of the loop in `ge2d_process_work_queue`: program, start, wait, acknowledge, move to the free list. */
    method ProcessItem(c: Id) returns (more: bool)
      requires Valid() && c in contexts && mon == Programming(c)
      modifies this`contexts, this`regs, this`mon, this`trace
      ensures Valid() && old(contexts[c].work) != []
      ensures contexts == old(contexts)[c := Processed(old(contexts[c]))]
      ensures regs == old(contexts[c].work[0].config)
      ensures more == (contexts[c].work != []) && mon == if more then Programming(c) else Leaving(c)
    {
      hide Next, After, Inv, Program, Enabled;
      RunItem(c);
      more := RetireItem(c);
    }

    /** Programs the flagged groups, starts the command and waits for the hardware. */
    method RunItem(c: Id)
      requires Valid() && c in contexts && mon == Programming(c)
      modifies this`contexts, this`regs, this`mon, this`trace
      ensures Valid() && mon == Acking(c) && old(contexts[c].work) != []
      ensures var x := old(contexts[c]);
              var it := x.work[0];
              && contexts == old(contexts)[c := x.(ran := Some(it.config), completed := x.completed + 1,
                   started := x.started + [Job(it.cmd, it.config)])]
              && regs == it.config
    {
      hide Next, After, Inv, Program, Enabled, Layout.Bits, Layout.Valid;
      ghost var was := View();
      MonitorSteps(was);
      var x := contexts[c];
      var it := x.work[0];
      BitsNamed(layout, it.flags);
      regs := ProgramFlagged(layout, regs, it.config, layout.Bits(it.flags));
      contexts := contexts[c := x.(ran := Some(it.config), started := x.started + [Job(it.cmd, it.config)])];
      mon := Running(c);
      Took(Start, was);

      was := View();
      MonitorSteps(was);
      contexts := contexts[c := contexts[c].(completed := x.completed + 1)];
      mon := Acking(c);
      Took(Finish, was);
    }

    /** Releases the submitter and returns the item to the free list. */
    method RetireItem(c: Id) returns (more: bool)
      requires Valid() && c in contexts && mon == Acking(c)
      modifies this`contexts, this`mon, this`trace
      ensures Valid() && old(contexts[c].work) != []
      ensures var x := old(contexts[c]);
              var it := x.work[0];
              contexts == old(contexts)[c :=
                x.(pending := x.pending - {it.id}, work := x.work[1..], free := x.free + [it.id])]
      ensures more == (contexts[c].work != []) && mon == if more then Programming(c) else Leaving(c)
    {
      hide Next, After, Inv, Program, Enabled;
      ghost var was := View();
      MonitorSteps(was);
      var x := contexts[c];
      var it := x.work[0];
      contexts := contexts[c := contexts[c].(pending := x.pending - {it.id})];
      mon := Moving(c);
      Took(Ack, was);

      was := View();
      MonitorSteps(was);
      contexts := contexts[c := contexts[c].(work := x.work[1..], free := x.free + [it.id])];
      more := contexts[c].work != [];
      mon := if more then Programming(c) else Leaving(c);
      Took(Move, was);
    }

    /** `ge2d_process_work_queue`: the queue is drained in order and nothing else changes but the registers. */
    method ProcessWorkQueue(c: Id)
      requires Valid() && c in contexts && mon == Picked(c)
      modifies this`contexts, this`regs, this`mon, this`trace, this`last
      ensures Valid() && mon == Scanning(0) && last == Some(c)
      ensures contexts == old(contexts)[c := Drained(old(contexts[c]))]
      ensures Some(regs) == contexts[c].ran
    {
      hide Next, After, Inv, Enabled, Drained, Processed;
      ghost var x := contexts[c];
      BeginQueue(c);
      var more := true;
      while more
        invariant Valid() && c in contexts && mon == if more then Programming(c) else Leaving(c)
        invariant contexts == old(contexts)[c := contexts[c]] && Drained(contexts[c]) == Drained(x)
        invariant !more ==> contexts[c].work == [] && contexts[c].ran == Some(regs)
        decreases if more then |contexts[c].work| + 1 else 0
      {
        ghost var y := contexts[c];
        more := ProcessItem(c);
        DrainedNext(y);
      }
      DrainedNone(contexts[c]);
      LeaveQueue(c);
    }

    /** A change of context makes the first item rewrite every register group. */
    method BeginQueue(c: Id)
      requires Valid() && c in contexts && mon == Picked(c)
      modifies this`contexts, this`mon, this`trace
      ensures Valid() && mon == Programming(c) && c in contexts
      ensures contexts == old(contexts)[c := contexts[c]] && Drained(contexts[c]) == Drained(old(contexts[c]))
      ensures contexts[c].work != [] && (last != Some(c) ==> contexts[c].work[0].flags == ALL)
    {
      hide Next, After, Inv, Enabled, Drained;
      ghost var was, x := View(), contexts[c];
      MonitorSteps(was);
      if last != Some(c) {
        var it := contexts[c].work[0];
        DrainedIgnoresFlags(x, ALL);
        contexts := contexts[c := contexts[c].(work := contexts[c].work[0 := it.(flags := ALL)])];
      }
      mon := Programming(c);
      Took(Begin, was);
    }

    method LeaveQueue(c: Id)
      requires Valid() && mon == Leaving(c)
      modifies this`last, this`mon, this`trace
      ensures Valid() && mon == Scanning(0) && last == Some(c)
    {
      hide Next, After, Inv, Enabled;
      ghost var was := View();
      MonitorSteps(was);
      last := Some(c);
      mon := Scanning(0);
      Took(Leave, was);
    }

    /** `down_interruptible` on a raised semaphore. */
    method TakeSemaphore()
      requires Valid() && mon == AtDown && sem > 0
      modifies this`sem, this`mon, this`trace
      ensures Valid() && mon == Scanning(0) && sem == old(sem) - 1
    {
      hide Next, After, Inv, Enabled;
      ghost var was := View();
      MonitorSteps(was);
      sem := sem - 1;
      mon := Scanning(0);
      Took(Down, was);
    }

    /** The body of `ge2d_monitor_thread`'s loop: taking the semaphore once serves all the work there is. */
    method MonitorPass()
      requires Valid() && mon == AtDown && sem > 0
      modifies this`contexts, this`ring, this`sem, this`regs, this`mon, this`trace, this`last
      ensures Valid() && mon == AtDown && sem == old(sem) - 1 && Busy(contexts) == {}
      ensures contexts == AllDrained(old(contexts))
    {
      hide Next, After, Inv, Enabled, Drained, Busy, AllDrained;
      TakeSemaphore();
      var found := NextWorkQueue();
      while found.Some?
        invariant Valid() && sem == old(sem) - 1
        invariant AllDrained(contexts) == AllDrained(old(contexts))
        invariant found.Some? ==> mon == Picked(found.value) && found.value in Busy(contexts)
        invariant found.None? ==> mon == AtDown && Busy(contexts) == {}
        decreases |Busy(contexts)|, if found.Some? then 1 else 0
      {
        ghost var before := contexts;
        ProcessWorkQueue(found.value);
        DrainOne(before, found.value);
        found := NextWorkQueue();
      }
      NothingToDrain(contexts);
    }

    /**
     `ge2d_wq_add_work` up to its wait: refused when no item is free; otherwise
     the job is queued last with the flags raised since the previous one, and
     the semaphore is up or a sleeping monitor awake.
     */
    method AddWork(c: Id, cmd: Cmd) returns (ok: bool)
      requires Valid() && c in contexts && contexts[c].pc.Outside?
      modifies this`contexts, this`sem, this`mon, this`trace
      ensures Valid() && ok == (old(contexts[c].free) != [])
      ensures !ok ==> contexts == old(contexts) && sem == old(sem) && mon == old(mon)
      ensures ok ==>
        var x := old(contexts[c]);
        var it := Item(x.free[0], cmd, x.config, x.flags);
        && contexts == old(contexts)[c := x.(work := x.work + [it], free := x.free[1..], flags := {}, pc := Past(it),
             pending := if cmd.block then x.pending + {it.id} else x.pending,
             accepted := x.accepted + [Job(cmd, x.config)])]
        && (sem, mon) == if old(sem) == 0 && old(mon).Asleep? then (0, Scanning(0))
                         else (if old(sem) == 0 then 1 else old(sem), old(mon))
    {
      hide Next, After, Inv, Enabled;
      if contexts[c].free == [] { return false; }
      QueueItem(c, cmd);
      RaiseSemaphore(c);
      return true;
    }

    /** Fills the first free item and moves it to the end of the work list. */
    method QueueItem(c: Id, cmd: Cmd)
      requires Valid() && c in contexts && contexts[c].pc.Outside? && contexts[c].free != []
      modifies this`contexts, this`trace
      ensures Valid()
      ensures var x := old(contexts[c]);
              var it := Item(x.free[0], cmd, x.config, x.flags);
              contexts == old(contexts)[c := x.(
                work := x.work + [it], free := x.free[1..], flags := {}, pc := Queued(it),
                pending := if cmd.block then x.pending + {it.id} else x.pending,
             accepted := x.accepted + [Job(cmd, x.config)])]
    {
      hide Next, After, Inv, Enabled;
      var x := contexts[c];
      ghost var was := View();
      ThreadSteps(was, c, cmd);
      var it := Item(x.free[0], cmd, x.config, x.flags);
      contexts := contexts[c := x.(pc := Filled(it), flags := {})];
      Took(Fill(c, cmd), was);

      was := View();
      ThreadSteps(was, c, cmd);
      contexts := contexts[c := contexts[c].(work := x.work + [it], free := x.free[1..], pc := Queued(it),
        pending := if cmd.block then x.pending + {it.id} else x.pending,
        accepted := x.accepted + [Job(cmd, x.config)])];
      Took(Enqueue(c), was);
    }

    /** Raises the semaphore if its count is zero. */
    method RaiseSemaphore(c: Id)
      requires Valid() && c in contexts && contexts[c].pc.Queued?
      modifies this`contexts, this`sem, this`mon, this`trace
      ensures Valid()
      ensures var x := old(contexts[c]); contexts == old(contexts)[c := x.(pc := Past(x.pc.item))]
      ensures (sem, mon) == if old(sem) == 0 && old(mon).Asleep? then (0, Scanning(0))
                            else (if old(sem) == 0 then 1 else old(sem), old(mon))
    {
      hide Next, After, Inv, Enabled;
      var x := contexts[c];
      var it := x.pc.item;
      ghost var was := View();
      ThreadSteps(was, c, it.cmd);
      contexts := contexts[c := x.(pc := if sem == 0 then Raising(it) else Past(it))];
      Took(Check(c), was);
      if sem == 0 {
        was := View();
        ThreadSteps(was, c, it.cmd);
        contexts := contexts[c := x.(pc := Past(it))];
        if mon.Asleep? { mon := Scanning(0); } else { sem := 1; }
        Took(Up(c), was);
      }
    }

    /**
     The end of `ge2d_wq_add_work`: a submission that does not block, or whose
     job is done, returns, and a waiting one may be interrupted by a signal. One
     that blocked and was not interrupted finds every job of its context run.
     */
    method EndCall(c: Id, interrupted: bool)
      requires Valid() && c in contexts && contexts[c].pc.Past?
      requires interrupted || contexts[c].pc.item.id !in contexts[c].pending
      modifies this`contexts, this`trace
      ensures Valid() && contexts == old(contexts)[c := old(contexts[c]).(pc := Outside)]
      ensures var x := old(contexts[c]);
              !interrupted && x.pc.item.cmd.block ==>
                x.completed == |x.accepted| && x.started == x.accepted
    {
      hide Next, After, Inv, Enabled;
      ghost var was := View();
      ReturnSteps(was, c);
      var x := contexts[c];
      contexts := contexts[c := x.(pc := Outside)];
      if interrupted {
        Took(Signal(c), was);
      } else {
        Took(Return(c), was);
      }
    }

    /**
     A blocking submission from start to end, the monitor doing its pass in
     between: refused exactly when no item is free, and otherwise every job the
     context ever queued has run, this one last, and the context can submit again.
     */
    method SubmitAndWait(c: Id, cmd: Cmd) returns (ok: bool)
      requires Valid() && c in contexts && contexts[c].pc.Outside? && mon == AtDown && cmd.block
      modifies this`contexts, this`ring, this`sem, this`regs, this`mon, this`trace, this`last
      ensures Valid() && ok == (old(contexts[c].free) != []) && mon == AtDown
      ensures contexts.Keys == old(contexts).Keys && contexts[c].pc.Outside?
      ensures ok ==>
        && contexts[c].started == contexts[c].accepted == old(contexts[c].accepted + [Job(cmd, contexts[c].config)])
        && contexts[c].completed == |contexts[c].accepted| && Busy(contexts) == {}
    {
      hide After, Inv, Drained;
      ok := AddWork(c, cmd);
      if ok {
        ghost var x := contexts[c];
        MonitorPass();
        DrainedReleases(x);
        EndCall(c, false);
      }
    }

    /** A setter call on a context, outside `ge2d_wq_add_work`. */
    method SetUp(c: Id, r: Request)
      requires Valid() && c in contexts && contexts[c].pc.Outside?
      modifies this`contexts, this`trace
      ensures Valid()
      ensures var x := old(contexts[c]);
              var (config, flags) := Requested(platform, x.config, x.flags, r);
              contexts == old(contexts)[c := x.(config := config, flags := flags)]
      ensures (r.SetSrc? || r.SetDst?) && contexts[c].config != old(contexts[c].config)
              ==> Matched(platform, contexts[c].config)
      ensures !r.SetMatrixOff? && !r.SetAll? && Matched(platform, old(contexts[c].config))
              ==> Matched(platform, contexts[c].config)
    {
      hide Next, After, Inv, Requested, Matched;
      ghost var was := View();
      var x := contexts[c];
      var s := new Setters(platform, x.config, x.flags);
      s.Take(r);
      RequestCovers(platform, x.config, x.flags, r);
      ConfigureStep(was, c, s.config, s.flags);
      contexts := contexts[c := x.(config := s.config, flags := s.flags)];
      Took(Configure(c, s.config, s.flags), was);
    }

    /** `create_ge2d_work_queue`: a new context with all its items free goes to the end of the ring. */
    method CreateWorkQueue(c: Id, config: Config, items: nat)
      requires Valid() && c !in contexts && !mon.Scanning?
      modifies this`contexts, this`ring, this`trace
      ensures Valid() && ring == old(ring) + [c]
      ensures contexts == old(contexts)[c := Context(items, config, {}, [], Upto(items), {}, Outside, None, [], [], 0)]
    {
      hide After, Inv;
      ghost var was := View();
      contexts := contexts[c := Context(items, config, {}, [], Upto(items), {}, Outside, None, [], [], 0)];
      ring := ring + [c];
      Took(Create(c, config, items), was);
    }

    /** Every context is in the ring. */
    lemma RingOf()
      requires Valid()
      ensures forall c :: c in ring <==> c in contexts
    {
    }
  }

  /** Draining releases the submitter of a queued item and changes neither its call nor what was accepted. */
  lemma DrainedReleases(x: Context)
    requires InCall(x.pc) && x.work != [] && x.work[|x.work| - 1] == x.pc.item
    ensures var d := Drained(x);
            d.pc == x.pc && x.pc.item.id !in d.pending && d.accepted == x.accepted && d.work == []
  {
    DrainedIs(x);
    DrainedRest(x);
    assert Ids(x.work)[|x.work| - 1] == x.pc.item.id;
  }

  lemma ReturnSteps(s: State, c: Id)
    requires Inv(s) && c in s.contexts && s.contexts[c].pc.Past?
    ensures var x := s.contexts[c];
            && Enabled(s, Signal(c)) && Next(s, Signal(c)) == s.(contexts := s.contexts[c := x.(pc := Outside)])
            && (x.pc.item.id !in x.pending ==>
                  && Enabled(s, Return(c)) && Next(s, Return(c)) == s.(contexts := s.contexts[c := x.(pc := Outside)])
                  && (x.pc.item.cmd.block ==> x.completed == |x.accepted| && x.started == x.accepted))
  {
    hide RingInv, WakeInv, DirtyInv, ItemsInv, Jobs;
    var x := s.contexts[c];
    assert ContextInv(x, s.mon, c);
    assert |x.started| >= x.completed;
  }

  lemma ConfigureStep(s: State, c: Id, config: Config, flags: set<Group>)
    requires c in s.contexts && s.contexts[c].pc.Outside?
    requires s.contexts[c].flags <= flags && Covers(s.contexts[c].config, config, flags)
    ensures Enabled(s, Configure(c, config, flags))
    ensures Next(s, Configure(c, config, flags))
            == s.(contexts := s.contexts[c := s.contexts[c].(config := config, flags := flags)])
  {
    hide Covers;
  }

  lemma ScanStep(s: State)
    requires Inv(s) && s.mon.Scanning? && s.mon.i <= |s.ring|
    ensures Enabled(s, Scan)
    ensures Next(s, Scan) ==
      if s.mon.i == |s.ring| then s.(mon := AtDown)
      else if s.contexts[s.ring[s.mon.i]].work == [] then s.(mon := Scanning(s.mon.i + 1))
      else s.(mon := Picked(s.ring[s.mon.i]), ring := s.ring[s.mon.i + 1..] + s.ring[..s.mon.i + 1])
  {
    hide WakeInv, QueueInv, DirtyInv;
  }

  lemma DrainOne(contexts: map<Id, Context>, c: Id)
    requires c in Busy(contexts)
    ensures var m := contexts[c := Drained(contexts[c])];
            AllDrained(m) == AllDrained(contexts) && |Busy(m)| < |Busy(contexts)|
  {
    hide Drained;
    DrainedTwice(contexts[c]);
    var m := contexts[c := Drained(contexts[c])];
    assert Busy(m) == Busy(contexts) - {c};
    assert m.Keys == contexts.Keys;
  }

  lemma NothingToDrain(contexts: map<Id, Context>)
    requires Busy(contexts) == {}
    ensures AllDrained(contexts) == contexts
  {
    forall c | c in contexts ensures Drained(contexts[c]) == contexts[c] {
      assert c !in Busy(contexts);
    }
  }

  lemma DrainedNext(x: Context)
    requires x.work != []
    ensures Drained(Processed(x)) == Drained(x) && |Processed(x).work| == |x.work| - 1
    ensures Processed(x).ran == Some(x.work[0].config)
  {
  }

  lemma DrainedNone(x: Context)
    requires x.work == []
    ensures Drained(x) == x
  {
  }

  lemma DrainedTwice(x: Context)
    ensures Drained(x).work == [] && Drained(Drained(x)) == Drained(x)
  {
    DrainedIs(x);
  }

  /** What the monitor's next step does, the context it works on being there with work. */
  lemma MonitorSteps(s: State)
    requires Inv(s)
    ensures s.mon.Picked? || s.mon.Programming? || s.mon.Running? || s.mon.Acking? || s.mon.Moving? ==>
      s.mon.c in s.contexts && s.contexts[s.mon.c].work != []
    ensures s.mon == AtDown && s.sem > 0 ==>
      Enabled(s, Down) && Next(s, Down) == s.(sem := s.sem - 1, mon := Scanning(0))
    ensures s.mon.Picked? ==>
      var c := s.mon.c;
      var x := s.contexts[c];
      && Enabled(s, Begin)
      && Next(s, Begin) == (if s.last == Some(c) then s
           else s.(contexts := s.contexts[c := x.(work := x.work[0 := x.work[0].(flags := ALL)])])).(
           mon := Programming(c))
    ensures s.mon.Programming? ==>
      var c := s.mon.c;
      var x := s.contexts[c];
      var it := x.work[0];
      && Enabled(s, Start)
      && Next(s, Start) == s.(
           contexts := s.contexts[c := x.(ran := Some(it.config), started := x.started + [Job(it.cmd, it.config)])],
           regs := Program(s.regs, it.config, it.flags), mon := Running(c))
      && Program(s.regs, it.config, it.flags) == it.config
    ensures s.mon.Running? ==>
      var x := s.contexts[s.mon.c];
      && Enabled(s, Finish)
      && Next(s, Finish) == s.(contexts := s.contexts[s.mon.c := x.(completed := x.completed + 1)],
           mon := Acking(s.mon.c))
    ensures s.mon.Acking? ==>
      var x := s.contexts[s.mon.c];
      && Enabled(s, Ack)
      && Next(s, Ack) == s.(contexts := s.contexts[s.mon.c := x.(pending := x.pending - {x.work[0].id})],
           mon := Moving(s.mon.c))
    ensures s.mon.Moving? ==>
      var c := s.mon.c;
      var x := s.contexts[c];
      && Enabled(s, Move)
      && Next(s, Move) == s.(contexts := s.contexts[c := x.(work := x.work[1..], free := x.free + [x.work[0].id])],
           mon := if |x.work| == 1 then Leaving(c) else Programming(c))
    ensures s.mon.Leaving? ==> Enabled(s, Leave) && Next(s, Leave) == s.(mon := Scanning(0), last := Some(s.mon.c))
  {
    hide WakeInv, DirtyInv, QueueInv, NoRepeats, Program;
    if Processing(s.mon) && !s.mon.Leaving? {
      Needs(s.mon);
      WorkIsThere(s, s.mon.c);
    }
    if s.mon.Programming? { StartProgramsAll(s); }
  }

  lemma ThreadSteps(s: State, c: Id, cmd: Cmd)
    requires Inv(s) && c in s.contexts
    ensures var x := s.contexts[c];
      && (x.pc.Outside? && x.free != [] ==>
            && Enabled(s, Fill(c, cmd))
            && Next(s, Fill(c, cmd)) == s.(contexts :=
                 s.contexts[c := x.(pc := Filled(Item(x.free[0], cmd, x.config, x.flags)), flags := {})]))
      && (x.pc.Filled? && x.free != [] ==>
            && Enabled(s, Enqueue(c))
            && var it := x.pc.item;
               Next(s, Enqueue(c)) == s.(contexts := s.contexts[c :=
                 x.(work := x.work + [it], free := x.free[1..], pc := Queued(it),
                    pending := if it.cmd.block then x.pending + {it.id} else x.pending,
                    accepted := x.accepted + [Job(it.cmd, it.config)])]))
      && (x.pc.Queued? ==>
            && Enabled(s, Check(c))
            && Next(s, Check(c)) == s.(contexts := s.contexts[c :=
                 x.(pc := if s.sem == 0 then Raising(x.pc.item) else Past(x.pc.item))]))
      && (x.pc.Raising? ==>
            && Enabled(s, Up(c))
            && Next(s, Up(c)) == (if s.mon.Asleep? then s.(mon := Scanning(0)) else s.(sem := s.sem + 1)).(
                 contexts := s.contexts[c := x.(pc := Past(x.pc.item))]))
  {
    hide Inv;
  }
}
