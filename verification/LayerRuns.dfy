/** Several displays over one pool of layer ids: what holds after any run of calls. */
module LayerRuns {
  import opened Layers

  datatype State = State(used: set<int>, displays: map<nat, Side>)

  ghost predicate Enabled(s: State, t: Call) {
    match t
    case Open(d) => d !in s.displays
    case Create(d, id) => d in s.displays && 0 <= id < NONE && id !in s.used
    case CreateFails(d) => d in s.displays && !HasFree(s.used)
    case _ => t.d in s.displays
  }

  /** A call changes its display and the used ids, each as `Display`'s methods state it. */
  ghost function Next(s: State, t: Call): (s': State)
    requires Enabled(s, t)
  {
    var x := if t.Open? then Side([], map[]) else s.displays[t.d];
    State(NextUsed(s.used, x, t), if t.Close? then s.displays - {t.d} else s.displays[t.d := NextSide(x, t)])
  }

  /** Every display agrees with itself, live ids are marked used, and no id is live twice. */
  ghost predicate Inv(s: State) {
    && (forall d | d in s.displays :: Agree(s.displays[d].order, s.displays[d].layers))
    && (forall d, id | d in s.displays && id in s.displays[d].layers :: id in s.used)
    && (forall d, e, id | d in s.displays && e in s.displays
                          && id in s.displays[d].layers && id in s.displays[e].layers :: d == e)
  }

  /** Some display has a layer with id 0, the display being closed aside. */
  ghost predicate ZeroLive(s: State, t: Call) {
    exists d :: d in s.displays && 0 in s.displays[d].layers && (t.Close? ==> d != t.d)
  }

  /** The call does not release an id that is in use: only a creation that finds no id and a closed display can. */
  ghost predicate Harmless(s: State, t: Call) {
    t.CreateFails? || t.Close? ==> !ZeroLive(s, t)
  }

  lemma SideAgrees(x: Side, t: Call)
    requires Agree(x.order, x.layers) && (t.Create? ==> t.id !in x.layers)
    ensures Agree(NextSide(x, t).order, NextSide(x, t).layers)
  {
    hide Inserted, Without, Sorted, Distinct;
    match t
    case Open(_) | Close(_) => NothingAgrees();
    case Create(_, id) =>
      AgreeInsert(x.order, x.layers, id, Layer(TOP, true, CLIENT, CLIENT));
      InsertedOnTop(x.order, x.layers[id := Layer(TOP, true, CLIENT, CLIENT)], id);
    case CreateFails(_) =>
    case Destroy(_, id) => AgreeRemove(x.order, x.layers, id);
    case Zorder(_, id, z) =>
      if id in x.layers {
        AgreeRemove(x.order, x.layers, id);
        AgreeInsert(Without(x.order, id), x.layers - {id}, id, x.layers[id].(z := z));
        assert (x.layers - {id})[id := x.layers[id].(z := z)] == x.layers[id := x.layers[id].(z := z)];
      }
    case Show(_, id, visible) =>
      if id in x.layers { SortedFrame(x.order, x.layers, x.layers[id := x.layers[id].(visible := visible)]); }
    case Prepare(_, choice) =>
      var m := Composed(x.layers, Visible(x.order, x.layers), choice);
      SortedFrame(x.order, x.layers, m);
      AgreeFrom(x.order, x.layers, m);
  }

  lemma NothingAgrees()
    ensures Agree([], map[])
  {
  }

  /** A call changes which ids are live only by the one it creates or destroys. */
  lemma SideIds(x: Side, t: Call, id: int)
    requires !t.Open? && !t.Close?
    ensures id in NextSide(x, t).layers <==>
      if t.Create? && id == t.id then true else if t.Destroy? && id == t.id then false else id in x.layers
  {
    hide Visible;
  }

  lemma CallKeeps(s: State, t: Call)
    requires Inv(s) && Enabled(s, t) && Harmless(s, t)
    ensures Inv(Next(s, t))
  {
    hide Agree, NextSide, HasFree;
    if t.Open? {
      NothingAgrees();
      SideAgrees(Side([], map[]), t);
      OpenIsEmpty(t);
    } else if !t.Close? {
      var x := s.displays[t.d];
      SideAgrees(x, t);
      forall id { SideIds(x, t, id); }
    }
  }

  lemma OpenIsEmpty(t: Call)
    requires t.Open?
    ensures NextSide(Side([], map[]), t) == Side([], map[])
  {
  }

  /** A failing creation, or a closed display, while some other has a layer 0 leaves that live id marked free. */
  lemma FailureBreaks(s: State, t: Call)
    requires Enabled(s, t) && !Harmless(s, t)
    ensures !Inv(Next(s, t))
  {
    var d :| d in s.displays && 0 in s.displays[d].layers && (t.Close? ==> d != t.d);
    var s' := Next(s, t);
    assert d in s'.displays && 0 in s'.displays[d].layers && 0 !in s'.used;
  }

  /** Exactly the calls that release no live id keep the invariant. */
  lemma CallStep(s: State, t: Call)
    requires Inv(s) && Enabled(s, t)
    ensures Inv(Next(s, t)) <==> Harmless(s, t)
  {
    hide Inv, Enabled, Next, Harmless;
    if Harmless(s, t) { CallKeeps(s, t); } else { FailureBreaks(s, t); }
  }

  /**
   After such a failure the only free id is 0, so the next creation on any
   display hands it out a second time: on two displays at once, or twice in
   one display's order, which then points to a discarded layer.
   */
  lemma ZeroTwice(s: State, d: nat, f: nat, e: nat, id: int)
    requires Enabled(s, CreateFails(f)) && d in s.displays && 0 in s.displays[d].layers && e in s.displays
    requires Agree(s.displays[d].order, s.displays[d].layers)
    ensures var s' := Next(s, CreateFails(f));
            && (Enabled(s', Create(e, id)) <==> id == 0)
            && var x, y := Next(s', Create(e, 0)).displays[d], Next(s', Create(e, 0)).displays[e];
            && 0 in x.layers && 0 in y.layers
            && (d == e ==> !Distinct(x.order) && 0 !in Next(s', Create(e, 0)).used)
  {
    hide Sorted, Visible;
    var s' := Next(s, CreateFails(f));
    assert s'.displays == s.displays;
    assert 0 <= id < NONE ==> id in s.used;
    if d == e {
      DistinctBeforeLast(s.displays[d].order, 0);
    }
  }

  lemma {:induction false} DistinctBeforeLast(order: seq<int>, id: int)
    requires id in order
    ensures !Distinct(order + [id])
    decreases |order|
  {
    assert (order + [id])[1..] == order[1..] + [id];
    if order[0] != id {
      DistinctBeforeLast(order[1..], id);
    }
  }

  ghost predicate IsRun(states: seq<State>, calls: seq<Call>) {
    && |states| == |calls| + 1 && states[0] == State({}, map[])
    && forall i | 0 <= i < |calls| :: Enabled(states[i], calls[i]) && states[i + 1] == Next(states[i], calls[i])
  }

  /** No call of the first `n` released a live id. */
  ghost predicate AllHarmless(states: seq<State>, calls: seq<Call>, n: nat)
    requires n <= |calls| < |states|
  {
    forall i | 0 <= i < n :: Harmless(states[i], calls[i])
  }

  lemma {:induction false} HarmlessInv(states: seq<State>, calls: seq<Call>, n: nat)
    requires IsRun(states, calls) && n <= |calls| && AllHarmless(states, calls, n)
    ensures Inv(states[n])
  {
    hide Enabled, Next, Inv, Harmless;
    if n == 0 {
      assert Inv(State({}, map[])) by { EmptyInv(); }
    } else {
      HarmlessInv(states, calls, n - 1);
      CallStep(states[n - 1], calls[n - 1]);
    }
  }

  lemma EmptyInv()
    ensures Inv(State({}, map[]))
  {
  }

  /** Over any run, the invariant holds at every moment so far if and only if no call released a live id. */
  lemma RunInv(states: seq<State>, calls: seq<Call>, n: nat)
    requires IsRun(states, calls) && n <= |calls|
    ensures (forall i | 0 <= i <= n :: Inv(states[i])) <==> AllHarmless(states, calls, n)
  {
    hide Enabled, Next, Inv, Harmless;
    if AllHarmless(states, calls, n) {
      forall i | 0 <= i <= n ensures Inv(states[i]) {
        HarmlessInv(states, calls, i);
      }
    } else {
      var i :| 0 <= i < n && !Harmless(states[i], calls[i]);
      FailureBreaks(states[i], calls[i]);
      assert !Inv(states[i + 1]);
    }
  }

  /** Over any run that released no live id, failures and closings included, no two layers share an id. */
  lemma LiveIdsDistinct(states: seq<State>, calls: seq<Call>, n: nat, d: nat, e: nat)
    requires IsRun(states, calls) && n <= |calls| && AllHarmless(states, calls, n)
    requires d in states[n].displays && e in states[n].displays && d != e
    ensures forall id | id in states[n].displays[d].layers :: id !in states[n].displays[e].layers
  {
    hide Agree, Enabled, Next;
    HarmlessInv(states, calls, n);
  }

  /**
   Over any such run, each display orders exactly the layers it maps, once
   each and ascending in z, and its composer would receive exactly the visible
   ones in that order.
   */
  lemma LayersAgree(states: seq<State>, calls: seq<Call>, n: nat, d: nat)
    requires IsRun(states, calls) && n <= |calls| && AllHarmless(states, calls, n) && d in states[n].displays
    ensures var x := states[n].displays[d];
            && Distinct(x.order) && (forall id :: id in x.order <==> id in x.layers)
            && (forall i, j | 0 <= i <= j < |x.order| :: Z(x.layers, x.order[i]) <= Z(x.layers, x.order[j]))
            && Distinct(Visible(x.order, x.layers)) && Sorted(Visible(x.order, x.layers), x.layers)
  {
    hide Sorted, Distinct, Enabled, Next;
    HarmlessInv(states, calls, n);
    var x := states[n].displays[d];
    assert Agree(x.order, x.layers);
    VisibleAscending(x.order, x.layers);
    forall i, j | 0 <= i <= j < |x.order| ensures Z(x.layers, x.order[i]) <= Z(x.layers, x.order[j]) {
      SortedMeans(x.order, x.layers, i, j);
    }
  }
}
