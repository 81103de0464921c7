/**
 The display's layers: a cyclic search for unused ids, a map from id to layer
 and the same layers ordered by their z value for the composer.
 */
module Layers {
  import opened Bytes

  /** The id that stands for none; ids run below it. */
  const NONE := 0xffff_ffff

  // -------------------------------------------------------------------------
  // Ids

  /** The id looked at after `k` turns of the search from `start`. */
  function Probe(start: int, k: int): (id: int)
    ensures 0 <= id < NONE
  {
    (start % NONE + k) % NONE
  }

  lemma ProbeNext(start: int, k: nat)
    ensures Probe(start, k + 1) == (Probe(start, k) + 1) % NONE
  {
  }

  /** The search passes every id within one turn. */
  lemma ProbeReaches(start: int, id: int) returns (k: nat)
    requires 0 <= id < NONE
    ensures k < NONE && Probe(start, k) == id
  {
    k := if id >= start % NONE then id - start % NONE else id + NONE - start % NONE;
  }

  /** It is back at its start after exactly one. */
  lemma ProbeReturns(start: int, k: nat)
    requires 0 <= start < NONE && 1 <= k <= NONE
    ensures Probe(start, k) == start <==> k == NONE
  {
  }

  ghost predicate HasFree(used: set<int>) {
    exists id :: 0 <= id < NONE && id !in used
  }

  /** With every id taken and the cursor at `NONE`, the search meets neither a free id nor its start, ever. */
  lemma SearchNeverEnds(used: set<int>, k: nat)
    requires !HasFree(used)
    ensures Probe(NONE, k) in used && Probe(NONE, k) != NONE
  {
  }

  class IdPool {
    var used: set<int>
    var idle: u32

    constructor ()
      ensures used == {} && idle == 0
    {
      used, idle := {}, 0;
    }

    /**
     `GetIdleId`: the first unused id going round from the cursor, or `NONE`
     when there is none. The search ends unless all ids are taken and the
     cursor stands at `NONE`.
     */
    method GetIdleId() returns (id: u32)
      requires HasFree(used) || idle != NONE
      modifies this
      ensures id != NONE <==> old(HasFree(used))
      ensures id != NONE ==> id !in old(used)
      ensures id != NONE ==>
        exists k: nat :: && k < NONE && id == Probe(old(idle), k)
                         && forall j | 0 <= j < k :: Probe(old(idle), j) in old(used)
      ensures used == old(used) + {id} && idle == (if id != NONE then id else old(idle)) + 1
    {
      hide Probe;
      var start := idle;
      id := NONE;
      ProbeStart(start);
      idle := idle % NONE;
      ghost var k := 0;
      ghost var free := if HasFree(used) then FreeTurn(used, start) else NONE;
      while true
        invariant 0 <= k < NONE && used == old(used) && id == NONE && idle == Probe(start, k)
        invariant forall j | 0 <= j < k :: Probe(start, j) in used
        invariant HasFree(used) ==> k <= free < NONE && Probe(start, free) !in used
        decreases NONE - k
      {
        if idle !in used {
          id := idle;
          break;
        }
        ProbeNext(start, k);
        idle := (idle + 1) % NONE;
        k := k + 1;
        if start < NONE { ProbeReturns(start, k); }
        if start == idle { break; }
      }
      if id == NONE { AllTaken(used, start); }
      used := used + {id};
      idle := idle + 1;
    }
  }

  lemma ProbeStart(start: u32)
    ensures Probe(start, 0) == start % NONE && (Probe(start, 0) == start <==> start != NONE)
  {
  }

  ghost function FreeTurn(used: set<int>, start: int): (k: nat)
    requires HasFree(used)
    ensures k < NONE && Probe(start, k) !in used
  {
    var id :| 0 <= id < NONE && id !in used;
    var k := if id >= start % NONE then id - start % NONE else id + NONE - start % NONE;
    k
  }

  lemma AllTaken(used: set<int>, start: int)
    requires forall j | 0 <= j < NONE :: Probe(start, j) in used
    ensures !HasFree(used)
  {
    hide Probe;
    forall id | 0 <= id < NONE ensures id in used {
      var k := ProbeReaches(start, id);
    }
  }

  // -------------------------------------------------------------------------
  // Order

  /** A layer as far as the display orders it; `kind` is its composition type, `select` the composer's choice. */
  datatype Layer = Layer(z: u32, visible: bool, kind: int, select: int)

  function Z(layers: map<int, Layer>, id: int): (z: u32) {
    if id in layers then layers[id].z else 0
  }

  predicate AtLeast(order: seq<int>, layers: map<int, Layer>, z: int) {
    order == [] || (Z(layers, order[0]) >= z && AtLeast(order[1..], layers, z))
  }

  /** Ascending by z. */
  predicate Sorted(order: seq<int>, layers: map<int, Layer>) {
    order == [] || (AtLeast(order[1..], layers, Z(layers, order[0])) && Sorted(order[1..], layers))
  }

  predicate Distinct(order: seq<int>) {
    order == [] || (order[0] !in order[1..] && Distinct(order[1..]))
  }

  /** Both halves of the display: the ordered layers are the mapped layers, each once, ascending. */
  ghost predicate Agree(order: seq<int>, layers: map<int, Layer>) {
    Distinct(order) && Sorted(order, layers) && forall id :: id in order <==> id in layers
  }

  /** Put behind all layers of the same z, as a multiset inserts. */
  function Inserted(order: seq<int>, layers: map<int, Layer>, id: int): (r: seq<int>)
    ensures forall x :: x in r <==> x in order || x == id
  {
    if order == [] || Z(layers, order[0]) > Z(layers, id) then [id] + order
    else [order[0]] + Inserted(order[1..], layers, id)
  }

  function Without(order: seq<int>, id: int): (r: seq<int>)
    ensures forall x | x in r :: x in order
  {
    if order == [] then [] else if order[0] == id then order[1..] else [order[0]] + Without(order[1..], id)
  }

  /** The visible layers, in order. */
  function Visible(order: seq<int>, layers: map<int, Layer>): (r: seq<int>)
    ensures forall id :: id in r <==> id in order && id in layers && layers[id].visible
  {
    if order == [] then []
    else if order[0] in layers && layers[order[0]].visible then [order[0]] + Visible(order[1..], layers)
    else Visible(order[1..], layers)
  }

  lemma {:induction false} AtLeastMeans(order: seq<int>, layers: map<int, Layer>, z: int)
    ensures AtLeast(order, layers, z) <==> forall x | x in order :: Z(layers, x) >= z
    decreases |order|
  {
    if order == [] {
    } else {
      AtLeastMeans(order[1..], layers, z);
      assert order == [order[0]] + order[1..];
    }
  }

  lemma {:induction false} SortedMeans(order: seq<int>, layers: map<int, Layer>, i: nat, j: nat)
    requires Sorted(order, layers) && i <= j < |order|
    ensures Z(layers, order[i]) <= Z(layers, order[j])
    decreases |order|
  {
    if i > 0 {
      SortedMeans(order[1..], layers, i - 1, j - 1);
    } else if j > 0 {
      AtLeastMeans(order[1..], layers, Z(layers, order[0]));
      assert order[j] == order[1..][j - 1];
    }
  }

  /** Sorting depends only on the z of the listed layers. */
  lemma {:induction false} SortedFrame(order: seq<int>, layers: map<int, Layer>, layers': map<int, Layer>)
    requires Sorted(order, layers) && forall x | x in order :: Z(layers', x) == Z(layers, x)
    ensures Sorted(order, layers')
    decreases |order|
  {
    if order == [] {
    } else {
      AtLeastMeans(order[1..], layers, Z(layers, order[0]));
      AtLeastMeans(order[1..], layers', Z(layers', order[0]));
      SortedFrame(order[1..], layers, layers');
    }
  }

  lemma {:induction false} SortedInsert(order: seq<int>, layers: map<int, Layer>, id: int)
    requires Sorted(order, layers)
    ensures Sorted(Inserted(order, layers, id), layers)
    decreases |order|
  {
    hide AtLeast;
    if order == [] || Z(layers, order[0]) > Z(layers, id) {
      SortedFront(order, layers, Z(layers, id));
      assert ([id] + order)[1..] == order;
    } else {
      var r, z := Inserted(order[1..], layers, id), Z(layers, order[0]);
      SortedInsert(order[1..], layers, id);
      AtLeastMeans(order[1..], layers, z);
      AtLeastMeans(r, layers, z);
      assert ([order[0]] + r)[1..] == r;
    }
  }

  lemma SortedFront(order: seq<int>, layers: map<int, Layer>, z: int)
    requires Sorted(order, layers) && (order != [] ==> Z(layers, order[0]) > z)
    ensures AtLeast(order, layers, z)
  {
  }

  lemma {:induction false} SortedWithout(order: seq<int>, layers: map<int, Layer>, id: int)
    requires Sorted(order, layers)
    ensures Sorted(Without(order, id), layers)
    decreases |order|
  {
    hide AtLeast;
    if order != [] && order[0] != id {
      var r, z := Without(order[1..], id), Z(layers, order[0]);
      SortedWithout(order[1..], layers, id);
      AtLeastMeans(order[1..], layers, z);
      AtLeastMeans(r, layers, z);
      assert ([order[0]] + r)[1..] == r;
    }
  }

  lemma {:induction false} DistinctInsert(order: seq<int>, layers: map<int, Layer>, id: int)
    requires Distinct(order) && id !in order
    ensures Distinct(Inserted(order, layers, id))
    decreases |order|
  {
    if order == [] || Z(layers, order[0]) > Z(layers, id) {
      assert ([id] + order)[1..] == order;
    } else {
      DistinctInsert(order[1..], layers, id);
      assert ([order[0]] + Inserted(order[1..], layers, id))[1..] == Inserted(order[1..], layers, id);
    }
  }

  lemma {:induction false} DistinctWithout(order: seq<int>, id: int)
    requires Distinct(order)
    ensures Distinct(Without(order, id)) && forall x :: x in Without(order, id) <==> x in order && x != id
    decreases |order|
  {
    if order != [] && order[0] != id {
      DistinctWithout(order[1..], id);
      assert ([order[0]] + Without(order[1..], id))[1..] == Without(order[1..], id);
    }
  }

  lemma AgreeInsert(order: seq<int>, layers: map<int, Layer>, id: int, x: Layer)
    requires Agree(order, layers) && id !in layers
    ensures Agree(Inserted(order, layers[id := x], id), layers[id := x])
  {
    hide Sorted, Distinct;
    SortedFrame(order, layers, layers[id := x]);
    SortedInsert(order, layers[id := x], id);
    DistinctInsert(order, layers[id := x], id);
  }

  lemma AgreeRemove(order: seq<int>, layers: map<int, Layer>, id: int)
    requires Agree(order, layers)
    ensures Agree(Without(order, id), layers - {id})
  {
    hide Sorted, Distinct;
    DistinctWithout(order, id);
    SortedWithout(order, layers, id);
    SortedFrame(Without(order, id), layers, layers - {id});
  }

  /** What the composer gets: exactly the visible layers, each once, in ascending z. */
  lemma {:induction false} VisibleAscending(order: seq<int>, layers: map<int, Layer>)
    requires Distinct(order) && Sorted(order, layers)
    ensures Distinct(Visible(order, layers)) && Sorted(Visible(order, layers), layers)
    decreases |order|
  {
    hide AtLeast;
    if order == [] {
    } else {
      VisibleAscending(order[1..], layers);
      var r := Visible(order[1..], layers);
      AtLeastMeans(order[1..], layers, Z(layers, order[0]));
      AtLeastMeans(r, layers, Z(layers, order[0]));
      assert ([order[0]] + r)[1..] == r;
    }
  }

  // -------------------------------------------------------------------------
  // The display

  /** A new layer's z, which puts it on top. */
  const TOP := 0xffff_ffff
  const CLIENT := 0

  /** A list that does not yet hold `id` goes on, and not beyond the layers of its z. */
  lemma StillAhead(order: seq<int>, layers: map<int, Layer>, id: int, c: nat)
    requires Agree(order, layers) && id in layers && c <= |order| && id !in order[..c]
    ensures c < |order| && Z(layers, order[c]) <= Z(layers, id)
  {
    var k :| 0 <= k < |order| && order[k] == id;
    assert forall i | 0 <= i < c :: order[i] == order[..c][i];
    SortedMeans(order, layers, c, k);
  }

  lemma {:induction false} WithoutAt(order: seq<int>, k: nat)
    requires k < |order| && order[k] !in order[..k]
    ensures Without(order, order[k]) == order[..k] + order[k + 1..]
    decreases k
  {
    if k == 0 {
    } else {
      var rest := order[1..];
      assert rest[k - 1] == order[k] && rest[..k - 1] == order[..k][1..] && rest[k..] == order[k + 1..];
      assert order[0] == order[..k][0];
      WithoutAt(rest, k - 1);
      assert order[..k] == [order[0]] + rest[..k - 1];
    }
  }

  lemma {:induction false} WithoutInserted(order: seq<int>, layers: map<int, Layer>, id: int)
    requires id !in order
    ensures Without(Inserted(order, layers, id), id) == order
    decreases |order|
  {
    if order != [] && Z(layers, order[0]) <= Z(layers, id) {
      WithoutInserted(order[1..], layers, id);
      assert ([order[0]] + Inserted(order[1..], layers, id))[1..] == Inserted(order[1..], layers, id);
    } else {
      assert ([id] + order)[1..] == order;
    }
  }

  lemma {:induction false} InsertedOnTop(order: seq<int>, layers: map<int, Layer>, id: int)
    requires Z(layers, id) == TOP
    ensures Inserted(order, layers, id) == order + [id]
    decreases |order|
  {
    if order == [] {
    } else {
      InsertedOnTop(order[1..], layers, id);
    }
  }

  /** The layers the composer chose another composition for. */
  function Changes(shown: seq<int>, layers: map<int, Layer>, choice: int -> int): (r: seq<int>) {
    if shown == [] then []
    else
      var n := |shown| - 1;
      Changes(shown[..n], layers, choice)
      + if shown[n] in layers && choice(shown[n]) != layers[shown[n]].kind then [shown[n]] else []
  }

  /** `a` is what is left of `s` when some entries are dropped. */
  predicate Within(a: seq<int>, s: seq<int>)
    decreases |s|
  {
    a == [] || (s != [] && (Within(a, s[..|s| - 1])
                            || (a[|a| - 1] == s[|s| - 1] && Within(a[..|a| - 1], s[..|s| - 1]))))
  }

  lemma WithinSnoc(a: seq<int>, s: seq<int>, id: int)
    requires Within(a, s)
    ensures Within(a, s + [id]) && Within(a + [id], s + [id])
  {
    assert (s + [id])[..|s|] == s && (a + [id])[..|a|] == a;
  }

  /** A shown layer is remembered exactly when its composition differs from the choice, in the order shown. */
  lemma {:induction false} ChangesIs(shown: seq<int>, layers: map<int, Layer>, choice: int -> int)
    ensures var r := Changes(shown, layers, choice);
            && Within(r, shown)
            && forall id :: id in r <==> id in shown && id in layers && choice(id) != layers[id].kind
  {
    hide Within;
    if shown == [] {
      WithinNone([]);
    } else {
      var n := |shown| - 1;
      ChangesIs(shown[..n], layers, choice);
      var r := Changes(shown[..n], layers, choice);
      WithinSnoc(r, shown[..n], shown[n]);
      assert shown == shown[..n] + [shown[n]] && r + [] == r;
    }
  }

  lemma WithinNone(s: seq<int>)
    ensures Within([], s)
  {
  }

  /** A display's layers: their order and the map. */
  datatype Side = Side(order: seq<int>, layers: map<int, Layer>)

  /** `Create` carries the id the search returned; `CreateFails` is a creation that found none. */
  datatype Call = Open(d: nat) | Create(d: nat, id: int) | CreateFails(d: nat) | Destroy(d: nat, id: int)
                | Zorder(d: nat, id: int, z: u32) | Show(d: nat, id: int, visible: bool)
                | Prepare(d: nat, choice: int -> int) | Close(d: nat)

  /** What a call leaves of its display; the order keeps a second entry for an id handed out twice. */
  ghost function NextSide(x: Side, t: Call): (x': Side) {
    match t
    case Open(_) | Close(_) => Side([], map[])
    case Create(_, id) =>
      var m := if id in x.layers then x.layers else x.layers[id := Layer(TOP, true, CLIENT, CLIENT)];
      Side(x.order + [id], m)
    case CreateFails(_) => x
    case Destroy(_, id) => if id in x.layers then Side(Without(x.order, id), x.layers - {id}) else x
    case Zorder(_, id, z) =>
      if id !in x.layers || x.layers[id].z == z then x
      else
        var m := x.layers[id := x.layers[id].(z := z)];
        Side(Inserted(Without(x.order, id), m, id), m)
    case Show(_, id, visible) =>
      if id in x.layers then Side(x.order, x.layers[id := x.layers[id].(visible := visible)]) else x
    case Prepare(_, choice) => Side(x.order, Composed(x.layers, Visible(x.order, x.layers), choice))
  }

  /**
   What a call leaves of the used ids. A layer that was never initialised, as a
   discarded one and a display's client layer, releases id 0, its default. A
   layer whose id its display already has is discarded again, with its id.
   */
  ghost function NextUsed(used: set<int>, x: Side, t: Call): (used': set<int>) {
    match t
    case Create(_, id) => if id in x.layers then used - {id} else used + {id}
    case CreateFails(_) => used + {NONE} - {0}
    case Destroy(_, id) => if id in x.layers then used - {id} else used
    case Close(_) => used - x.layers.Keys - {0}
    case _ => used
  }

  /** The layers after the composer's choices for the shown ones. */
  function Composed(layers: map<int, Layer>, shown: seq<int>, choice: int -> int): (m: map<int, Layer>)
    ensures m.Keys == layers.Keys && forall id | id in m :: m[id].z == layers[id].z
  {
    map id | id in layers ::
      if id in shown then layers[id].(kind := choice(id), select := choice(id)) else layers[id]
  }

  lemma ComposedNext(layers: map<int, Layer>, shown: seq<int>, choice: int -> int, id: int)
    requires id in layers && id !in shown
    ensures Composed(layers, shown, choice)[id] == layers[id]
    ensures Composed(layers, shown + [id], choice)
            == Composed(layers, shown, choice)[id := layers[id].(kind := choice(id), select := choice(id))]
  {
  }

  lemma ComposedNone(layers: map<int, Layer>, choice: int -> int)
    ensures Composed(layers, [], choice) == layers
  {
  }

  class Display {
    const ids: IdPool
    var layers: map<int, Layer>
    var order: seq<int>
    var changed: seq<int>

    /** The two views of the layers agree, and every live id is marked as used. */
    ghost predicate Valid()
      reads this, ids
    {
      Agree(order, layers) && forall id | id in layers :: 0 <= id < NONE && id in ids.used
    }

    ghost function View(): (x: Side)
      reads this
    {
      Side(order, layers)
    }

    constructor (pool: IdPool)
      ensures Valid() && ids == pool && layers == map[] && order == []
    {
      ids, layers, order, changed := pool, map[], [], [];
    }

    /** Finds the layer among those of its z and erases it. */
    method Erase(id: int)
      requires Agree(order, layers) && id in layers
      modifies `order
      ensures order == Without(old(order), id)
    {
      hide Agree, Without;
      var z, c, found := layers[id].z, 0, false;
      StillAhead(order, layers, id, 0);
      while c < |order| && Z(layers, order[c]) < z
        invariant c < |order| && id !in order[..c] && order == old(order)
        invariant Z(layers, order[c]) <= z
        decreases |order| - c
      {
        assert order[..c + 1] == order[..c] + [order[c]];
        c := c + 1;
        StillAhead(order, layers, id, c);
      }
      while !found && c < |order| && Z(layers, order[c]) == z
        invariant c < |old(order)|
        invariant !found ==> order == old(order) && id !in order[..c] && Z(layers, order[c]) == z
        invariant found ==> order == Without(old(order), id)
        decreases |order| - c, !found
      {
        if order[c] == id {
          WithoutAt(order, c);
          order := order[..c] + order[c + 1..];
          found := true;
        } else {
          assert order[..c + 1] == order[..c] + [order[c]];
          StillAhead(order, layers, id, c + 1);
          AscendsFrom(order, layers, c);
          c := c + 1;
        }
      }
    }

    /** Puts a layer behind those of its z. */
    method Insert(id: int)
      requires id in layers
      modifies `order
      ensures order == Inserted(old(order), layers, id)
    {
      var k := 0;
      while k < |order| && Z(layers, order[k]) <= Z(layers, id)
        invariant k <= |order| && order == old(order)
        invariant Inserted(order, layers, id) == order[..k] + Inserted(order[k..], layers, id)
      {
        assert order[k..][0] == order[k] && order[k..][1..] == order[k + 1..];
        assert order[..k + 1] == order[..k] + [order[k]];
        k := k + 1;
      }
      order := order[..k] + [id] + order[k..];
    }

    /**
     `CreateLayer`: a new layer on top of all others under an id nobody uses.
     Without a free id nothing is created, and the discarded layer's destructor
     releases id 0, whoever holds it.
     */
    method CreateLayer() returns (id: u32)
      requires Valid() && (HasFree(ids.used) || ids.idle != NONE)
      modifies `layers, `order, ids
      ensures id != NONE <==> old(HasFree(ids.used))
      ensures id != NONE ==>
        && Valid() && id !in old(ids.used) && id !in old(layers) && ids.used == old(ids.used) + {id}
        && layers == old(layers)[id := Layer(TOP, true, CLIENT, CLIENT)] && order == old(order) + [id]
      ensures id == NONE ==>
        && layers == old(layers) && order == old(order) && ids.used == old(ids.used) + {NONE} - {0}
        && (Valid() <==> 0 !in layers)
      ensures forall d :: var t := if id == NONE then CreateFails(d) else Create(d, id);
        View() == NextSide(old(View()), t) && ids.used == NextUsed(old(ids.used), old(View()), t)
    {
      hide Agree, Inserted;
      id := ids.GetIdleId();
      if id == NONE {
        ids.used := ids.used - {0};
      } else {
        AgreeInsert(order, layers, id, Layer(TOP, true, CLIENT, CLIENT));
        layers := layers[id := Layer(TOP, true, CLIENT, CLIENT)];
        InsertedOnTop(order, layers, id);
        Insert(id);
      }
    }

    /** The destructor: the layers go one by one, each releasing its id, and then the client layer. */
    method Close()
      requires Valid()
      modifies `layers, `order, ids`used
      ensures forall d :: View() == NextSide(old(View()), Call.Close(d))
      ensures forall d :: ids.used == NextUsed(old(ids.used), old(View()), Call.Close(d))
    {
      var i := 0;
      while i < |order|
        invariant order == old(order) && layers == old(layers)
        invariant i <= |order| && ids.used == old(ids.used) - (set id | id in order[..i])
      {
        assert order[..i + 1] == order[..i] + [order[i]];
        ids.used := ids.used - {order[i]};
        i := i + 1;
      }
      assert order[..i] == order;
      AgreeKeys(order, layers);
      layers, order := map[], [];
      ids.used := ids.used - {0};
    }

    /** `DestroyLayer`: the layer leaves both views and its id becomes free. */
    method DestroyLayer(id: u32) returns (ok: bool)
      requires Valid()
      modifies `layers, `order, ids`used
      ensures Valid() && ok == (id in old(layers))
      ensures layers == old(layers) - {id}
      ensures ok ==> order == Without(old(order), id) && ids.used == old(ids.used) - {id}
      ensures !ok ==> order == old(order) && ids.used == old(ids.used)
      ensures forall d :: var t := Destroy(d, id);
        View() == NextSide(old(View()), t) && ids.used == NextUsed(old(ids.used), old(View()), t)
    {
      hide Agree, Without;
      if id !in layers { return false; }
      Erase(id);
      AgreeRemove(old(order), layers, id);
      layers := layers - {id};
      ids.used := ids.used - {id};
      return true;
    }

    /** `SetLayerZorder`: the layer moves to its new place and the others keep theirs. */
    method SetLayerZorder(id: u32, z: u32) returns (ok: bool)
      requires Valid()
      modifies `layers, `order
      ensures Valid() && ok == (id in old(layers))
      ensures layers == if ok then old(layers)[id := old(layers)[id].(z := z)] else old(layers)
      ensures Without(order, id) == Without(old(order), id)
      ensures ok && z != old(layers)[id].z ==> order == Inserted(Without(old(order), id), layers, id)
      ensures !ok || z == old(layers)[id].z ==> order == old(order)
      ensures forall d :: View() == NextSide(old(View()), Zorder(d, id, z))
    {
      hide Agree, Without, Inserted;
      if id !in layers { return false; }
      if layers[id].z == z { return true; }
      Erase(id);
      AgreeRemove(old(order), layers, id);
      AgreeInsert(order, layers - {id}, id, layers[id].(z := z));
      assert (layers - {id})[id := layers[id].(z := z)] == layers[id := layers[id].(z := z)];
      layers := layers[id := layers[id].(z := z)];
      AgreeNames(order, old(layers) - {id}, id);
      WithoutInserted(order, layers, id);
      Insert(id);
      return true;
    }

    method SetLayerVisible(id: u32, visible: bool)
      requires Valid() && id in layers
      modifies `layers
      ensures Valid() && layers == old(layers)[id := old(layers)[id].(visible := visible)]
      ensures forall d :: View() == NextSide(old(View()), Show(d, id, visible))
    {
      SortedFrame(order, layers, layers[id := layers[id].(visible := visible)]);
      layers := layers[id := layers[id].(visible := visible)];
    }

    /**
     `PrepareDisplayLayers`: the composer receives the visible layers in
     ascending z and answers with a composition for each, `choice`; the layers
     it changed are remembered in the same order.
     */
    method PrepareDisplayLayers(choice: int -> int) returns (shown: seq<int>)
      requires Valid()
      modifies `layers, `changed
      ensures Valid() && shown == Visible(order, old(layers)) && Distinct(shown) && Sorted(shown, layers)
      ensures changed == Changes(shown, old(layers), choice) && layers == Composed(old(layers), shown, choice)
      ensures forall id :: id in shown <==> id in layers && old(layers)[id].visible
      ensures Within(changed, shown)
      ensures forall id :: id in changed <==> id in shown && choice(id) != old(layers)[id].kind
      ensures layers.Keys == old(layers).Keys
      ensures forall id | id in layers ::
                layers[id] == if id in shown then old(layers)[id].(kind := choice(id), select := choice(id))
                              else old(layers)[id]
      ensures forall d :: View() == NextSide(old(View()), Prepare(d, choice))
    {
      hide Agree, Sorted, Distinct, Within, Changes;
      AgreeKeys(order, layers);
      shown := VisibleLayers();
      assert Distinct(order) && Sorted(order, layers) by { AgreeParts(order, layers); }
      VisibleAscending(order, layers);
      ApplyChoice(shown, choice);
      ChangesIs(shown, old(layers), choice);
      SortedFrame(order, old(layers), layers);
      SortedFrame(shown, old(layers), layers);
      AgreeFrom(order, old(layers), layers);
    }

    method VisibleLayers() returns (shown: seq<int>)
      requires Agree(order, layers)
      ensures shown == Visible(order, layers)
    {
      hide Agree;
      shown := [];
      var c := 0;
      while c < |order|
        invariant c <= |order| && Visible(order, layers) == shown + Visible(order[c..], layers)
      {
        assert order[c..][0] == order[c] && order[c..][1..] == order[c + 1..];
        if order[c] in layers && layers[order[c]].visible { shown := shown + [order[c]]; }
        c := c + 1;
      }
    }

    /** Takes over the composer's choices and notes which layers they change. */
    method ApplyChoice(shown: seq<int>, choice: int -> int)
      requires Distinct(shown) && forall id | id in shown :: id in layers
      modifies `layers, `changed
      ensures changed == Changes(shown, old(layers), choice) && layers == Composed(old(layers), shown, choice)
    {
      changed := [];
      ComposedNone(layers, choice);
      var i := 0;
      while i < |shown|
        invariant i <= |shown| && changed == Changes(shown[..i], old(layers), choice)
        invariant layers == Composed(old(layers), shown[..i], choice)
      {
        hide Composed, Distinct;
        var id := shown[i];
        DistinctBefore(shown, i);
        ComposedNext(old(layers), shown[..i], choice, id);
        assert shown[..i + 1] == shown[..i] + [id] && shown[..i + 1][..i] == shown[..i];
        if choice(id) != layers[id].kind { changed := changed + [id]; }
        layers := layers[id := layers[id].(kind := choice(id), select := choice(id))];
        i := i + 1;
      }
      assert shown[..i] == shown;
    }
  }

  lemma {:induction false} DistinctBefore(s: seq<int>, i: nat)
    requires Distinct(s) && i < |s|
    ensures s[i] !in s[..i]
    decreases |s|
  {
    if i == 0 {
    } else {
      DistinctBefore(s[1..], i - 1);
      assert s[..i] == [s[0]] + s[1..][..i - 1] && s[i] == s[1..][i - 1];
    }
  }

  lemma AgreeKeys(order: seq<int>, layers: map<int, Layer>)
    requires Agree(order, layers)
    ensures (set id | id in order) == layers.Keys
  {
    forall id ensures id in order <==> id in layers.Keys {
      AgreeNames(order, layers, id);
    }
  }

  lemma AgreeParts(order: seq<int>, layers: map<int, Layer>)
    requires Agree(order, layers)
    ensures Distinct(order) && Sorted(order, layers)
  {
  }

  lemma AgreeFrom(order: seq<int>, layers: map<int, Layer>, layers': map<int, Layer>)
    requires Agree(order, layers) && layers'.Keys == layers.Keys && Sorted(order, layers')
    ensures Agree(order, layers')
  {
  }

  lemma AgreeNames(order: seq<int>, layers: map<int, Layer>, id: int)
    requires Agree(order, layers)
    ensures id in order <==> id in layers
  {
  }

  lemma AscendsFrom(order: seq<int>, layers: map<int, Layer>, c: nat)
    requires Agree(order, layers) && c + 1 < |order|
    ensures Z(layers, order[c]) <= Z(layers, order[c + 1])
  {
    SortedMeans(order, layers, c, c + 1);
  }
}
