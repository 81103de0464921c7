/** The canvas pool as the driver updates it in place, each operation proved against the functions of `Canvas`. */
module CanvasPool {
  import opened Options
  import opened Canvas

  class Canvases {
    const bits: array<bool>
    var next: int
    var freeNum: int

    ghost predicate Ready()
      reads this, bits
    {
      2 <= bits.Length <= 256 && 1 <= next < bits.Length
    }

    ghost function Used(): (s: set<int>)
      reads bits
    {
      set i | 0 <= i < bits.Length && bits[i]
    }

    ghost function View(): (p: Pool)
      reads this, bits
    {
      Pool(bits.Length, Used(), next, freeNum)
    }

    /** `canvas_pool_init` */
    constructor (max: nat)
      requires 2 <= max <= 256
      ensures Ready() && Canvas.Valid(View()) && View() == Pool(max, {}, max / 2, 0) && fresh(bits)
    {
      bits := new bool[max](i => false);
      next, freeNum := max / 2, 0;
      new;
      assert Used() == {};
    }

    /** `find_next_zero_bit` */
    method FindNextZero(from: int) returns (i: int)
      requires 0 <= from <= bits.Length
      ensures i == FirstFree(View(), from)
    {
      i := from;
      while i < bits.Length && bits[i]
        invariant from <= i <= bits.Length && FirstFree(View(), i) == FirstFree(View(), from)
      {
        i := i + 1;
      }
    }

    /** `test_and_set_bit` and `test_and_clear_bit` */
    method Assign(i: int, bit: bool)
      requires 0 <= i < bits.Length
      modifies bits
      ensures Used() == if bit then old(Used()) + {i} else old(Used()) - {i}
    {
      bits[i] := bit;
    }

    /** `canvas_pool_map_alloc_canvas_in` */
    method AllocIn() returns (index: int)
      requires Ready()
      modifies this, bits
      ensures Ready() && (View(), index) == AllocOne(old(View()))
      ensures if forall k | 1 <= k < bits.Length :: k in old(Used()) then index == -1 && View() == old(View())
              else && 1 <= index < bits.Length && index !in old(Used()) && Used() == old(Used()) + {index}
                   && next == (if index == bits.Length - 1 then 1 else index + 1) && freeNum == old(freeNum) - 1
    {
      SearchComplete(View());
      var start := next;
      var looped := start <= 1;
      index := -1;
      while index < 0
        invariant Ready() && next == old(next) && freeNum == old(freeNum)
        invariant index < 0 ==> Used() == old(Used()) && index == -1
        invariant index < 0 ==> (start == next && looped == (start <= 1)) || (start == 1 && looped)
        invariant index < 0 && start != next ==> FirstFree(View(), next) == bits.Length
        invariant index >= 0 ==> index == Search(old(View())) && Used() == old(Used()) + {index}
        decreases (if index < 0 then 1 else 0) + (if looped then 0 else 1)
      {
        var i := FindNextZero(start);
        if i >= bits.Length {
          if !looped {
            start, looped := 1, true;
          } else {
            return -1;
          }
        } else if !bits[i] {
          Assign(i, true);
          index := i;
        }
      }
      if index > 0 {
        next := if index + 1 < bits.Length then index + 1 else 1;
        freeNum := freeNum - 1;
      }
    }

    /** `canvas_pool_map_free_canvas_in`: the count rises even when the canvas was already free. */
    method FreeIn(index: int) returns (ok: bool)
      requires Ready()
      modifies this, bits
      ensures Ready() && View() == FreeOne(old(View()), index) && ok == (0 <= index < bits.Length)
      ensures next == old(next) && freeNum == old(freeNum) + (if ok then 1 else 0) && Used() == old(Used()) - {index}
    {
      if !(0 <= index < bits.Length) { return false; }
      Assign(index, false);
      freeNum := freeNum + 1;
      return true;
    }

    method AllocTwo() returns (c3: int, c4: int)
      requires Ready()
      modifies this, bits
      ensures Ready() && View() == AllocMany(old(View()), 2).0 && [c3, c4] == AllocMany(old(View()), 2).1
    {
      hide Search, AllocOne, AllocMany;
      ManyNext(View(), 2);
      c3 := AllocIn();
      ManyNext(View(), 1);
      c4 := AllocIn();
      ManyNone(View());
    }

    method AllocThree() returns (c2: int, c3: int, c4: int)
      requires Ready()
      modifies this, bits
      ensures Ready() && View() == AllocMany(old(View()), 3).0 && [c2, c3, c4] == AllocMany(old(View()), 3).1
    {
      hide Search, AllocOne, AllocMany;
      ManyNext(View(), 3);
      c2 := AllocIn();
      c3, c4 := AllocTwo();
    }

    /** The allocations of one turn; canvases the kind does not use stay 0. */
    method AllocEach(kind: Kind) returns (c1: int, c2: int, c3: int, c4: int)
      requires Ready()
      modifies this, bits
      ensures Ready() && View() == AllocMany(old(View()), Num(kind)).0
      ensures Chosen(kind, c1, c2, c3, c4) == AllocMany(old(View()), Num(kind)).1
      ensures (kind != Four ==> c1 == 0) && (kind == One || kind == Nv21 ==> c2 == 0) && (kind == One ==> c3 == 0)
    {
      hide Search, AllocOne, AllocMany;
      c1, c2, c3, c4 := 0, 0, 0, 0;
      ManyNext(View(), Num(kind));
      match kind
      case Four =>
        c1 := AllocIn();
        c2, c3, c4 := AllocThree();
      case Yuv =>
        c2, c3, c4 := AllocThree();
      case Nv21 =>
        c3, c4 := AllocTwo();
      case One =>
        c4 := AllocIn();
        ManyNone(View());
    }

    /** Gives back what a failed turn allocated. */
    method Rollback(c1: int, c2: int, c3: int, c4: int)
      requires Ready()
      modifies this, bits
      ensures Ready() && View() == Release(old(View()), [c1, c2, c3, c4])
    {
      hide FreeOne;
      ghost var p := View();
      ReleaseFour(p, c1, c2, c3, c4);
      if c1 > 0 { var _ := FreeIn(c1); }
      if c2 > 0 { var _ := FreeIn(c2); }
      if c3 > 0 { var _ := FreeIn(c3); }
      if c4 > 0 { var _ := FreeIn(c4); }
    }

    /** One turn: a packed run, or the bitmap as it was. */
    method Turn(kind: Kind) returns (ok: bool, canvas: int)
      requires Ready()
      modifies this, bits
      ensures Ready() && ok == Attempt(old(View()), kind).1.Some? && View() == Attempt(old(View()), kind).0
      ensures ok ==> canvas == Pack(kind, Attempt(old(View()), kind).1.value)
      ensures ok ==> NamesRun(kind, Search(old(View())), canvas)
    {
      hide Search, AllocMany, Release, Consecutive, Pack, Found, IsFound, Word, Chosen, NamesRun;
      AttemptIs(View(), kind);
      ghost var i := Search(View());
      if 1 <= i && i + Num(kind) <= bits.Length { Unpack(kind, i); }
      var c1, c2, c3, c4 := AllocEach(kind);
      ok := IsFound(kind, c1, c2, c3, c4);
      canvas := Word(kind, c1, c2, c3, c4);
      PackedRun(kind, c1, c2, c3, c4);
      if !ok {
        ReleaseZeros(View(), kind, c1, c2, c3, c4);
        Rollback(c1, c2, c3, c4);
        canvas := 0;
      }
    }

    /** `canvas_pool_map_alloc_canvas_continue_set` */
    method AllocContinueSet(kind: Kind) returns (ok: bool, canvas: int)
      requires Ready()
      modifies this, bits
      ensures Ready() && ok == AllocSet(old(View()), kind).1.Some? && View() == AllocSet(old(View()), kind).0
      ensures ok ==> canvas == Pack(kind, AllocSet(old(View()), kind).1.value)
      ensures ok ==>
        var i, n := Byte(canvas, 0), Num(kind);
        && NamesRun(kind, i, canvas) && 1 <= i && i + n <= bits.Length && Range(i, n) !! old(Used())
        && Used() == old(Used()) + Range(i, n) && freeNum == old(freeNum) - n
        && next == if i + n == bits.Length then 1 else i + n
      ensures !ok ==>
        && Used() == old(Used()) && freeNum == old(freeNum)
        && next == if old(next) + Num(kind) + 1 >= bits.Length then 1 else old(next) + 1
    {
      hide Search, Attempt, Pack, RunAt, Range, NamesRun;
      SetNamed(View(), kind);
      ghost var p, p' := View(), View().(next := Retry(View(), kind));
      AttemptIs(p, kind);
      AttemptIs(p', kind);
      var start, retry := next, 0;
      ok, canvas := false, 0;
      while !ok && retry <= bits.Length
        invariant Ready() && 0 <= retry <= bits.Length + 1
        invariant !ok ==> View() == if retry == 0 then p else p'
        invariant !ok && retry >= 1 ==> Attempt(p, kind).1.None?
        invariant !ok && retry >= 2 ==> Attempt(p', kind).1.None?
        invariant ok ==> View() == AllocSet(p, kind).0 && AllocSet(p, kind).1.Some?
        invariant ok ==> canvas == Pack(kind, AllocSet(p, kind).1.value)
        decreases if ok then 0 else 1, bits.Length + 1 - retry
      {
        ok, canvas := Turn(kind);
        if !ok {
          next := if start + 1 < bits.Length - Num(kind) then start + 1 else 1;
          retry := retry + 1;
        }
      }
    }

    /** Frees the canvases a word names, each once. */
    method FreeWord(v: int)
      requires Ready()
      modifies this, bits
      ensures Ready() && View() == FreeEntry(old(View()), v)
    {
      hide FreeOne, Byte;
      var c1, c2, c3, c4 := Byte(v, 0), Byte(v, 1), Byte(v, 2), Byte(v, 3);
      var _ := FreeIn(c1);
      if c2 != c1 { var _ := FreeIn(c2); }
      if c3 != c2 && c3 != c1 { var _ := FreeIn(c3); }
      if c4 != c3 && c4 != c2 && c4 != c1 { var _ := FreeIn(c4); }
    }

    /** `canvas_pool_free_canvas_table` */
    method FreeTable(tab: array<int>, size: nat)
      requires Ready() && size <= tab.Length
      modifies this, bits, tab
      ensures Ready() && View() == FreeAll(old(View()), old(tab[..size]))
      ensures (forall k | 0 <= k < size :: tab[k] == 0) && tab[size..] == old(tab[size..])
    {
      hide FreeEntry;
      var i := 0;
      while i < size
        invariant 0 <= i <= size && Ready() && tab[..] == old(tab[..])
        invariant FreeAll(View(), tab[i..size]) == FreeAll(old(View()), old(tab[..size]))
      {
        assert tab[i..size][0] == tab[i] && tab[i..size][1..] == tab[i + 1..size];
        FreeWord(tab[i]);
        i := i + 1;
      }
      forall k | 0 <= k < size { tab[k] := 0; }
    }

    /** The allocation loop: fills the table from the front and stops at the first failure. */
    method FillTable(tab: array<int>, size: nat, kind: Kind) returns (n: nat)
      requires Ready() && size <= tab.Length
      modifies this, bits, tab
      ensures Ready() && n <= size && View() == Fill(old(View()), kind, size).0
      ensures tab[..n] == Fill(old(View()), kind, size).1 && tab[n..] == old(tab[n..])
    {
      hide AllocSet, Fill, Pack, Canvas.Valid;
      ghost var p := View();
      assert Canvas.Valid(p) by { ReadyIsValid(); }
      n := 0;
      while n < size
        invariant n <= size && Ready() && Canvas.Valid(View())
        invariant Fill(p, kind, size).0 == Fill(View(), kind, size - n).0
        invariant Fill(p, kind, size).1 == tab[..n] + Fill(View(), kind, size - n).1
        invariant tab[n..] == old(tab[n..])
      {
        FillThen(p, kind, size, View(), size - n, tab[..n]);
        var found, canvas := AllocContinueSet(kind);
        if !found { return; }
        ghost var done := tab[..n];
        tab[n] := canvas;
        assert tab[..n + 1] == done + [canvas];
        assert tab[n + 1..] == old(tab[n..])[1..] == old(tab[n + 1..]);
        n := n + 1;
      }
      FillNone(View(), kind);
    }

    lemma ReadyIsValid()
      requires Ready()
      ensures Canvas.Valid(View())
    {
    }

    /**
     `canvas_pool_alloc_canvas_table`: the whole table is filled, or what was
     allocated is freed again.
     */
    method AllocTable(tab: array<int>, size: nat, kind: Kind) returns (ok: bool)
      requires Ready() && size <= tab.Length
      modifies this, bits, tab
      ensures Ready() && ok == (|Fill(old(View()), kind, size).1| == size)
      ensures ok ==>
        && tab[..size] == Fill(old(View()), kind, size).1
        && View() == Fill(old(View()), kind, size).0.(next := if old(next) + 1 == bits.Length then 1 else old(next) + 1)
      ensures !ok ==>
        var n := |Fill(old(View()), kind, size).1|;
        && Used() == old(Used()) - (if kind != Four && n > 0 then {0} else {})
        && freeNum == old(freeNum) + (if kind == Four then 0 else n) && next == Fill(old(View()), kind, size).0.next
    {
      hide Fill, FreeAll, Canvas.Valid;
      ghost var p := View();
      assert Canvas.Valid(p) by { ReadyIsValid(); }
      var oldstart := next;
      var i := FillTable(tab, size, kind);
      TableRestores(p, kind, size, next);
      if i < size {
        if i > 0 { FreeTable(tab, i); } else { FreeNothing(View()); }
        return false;
      }
      next := oldstart + 1;
      if next >= bits.Length { next := 1; }
      return true;
    }
  }

  /** What `SetIs` says, for the word handed out. */
  lemma SetNamed(p: Pool, kind: Kind)
    requires Canvas.Valid(p)
    ensures var (q, r) := AllocSet(p, kind);
            r.Some? ==>
              var v, n := Pack(kind, r.value), Num(kind);
              && Byte(v, 0) == r.value && NamesRun(kind, r.value, v) && 1 <= r.value && r.value + n <= p.max
              && Range(r.value, n) !! p.used
  {
    hide AllocSet, Search, Pack;
    SetIs(p, kind);
    var r := AllocSet(p, kind).1;
    if r.Some? {
      Unpack(kind, r.value);
    }
  }

  lemma FreeNothing(p: Pool)
    ensures FreeAll(p, []) == p
  {
  }

  lemma FillNone(p: Pool, kind: Kind)
    requires Canvas.Valid(p)
    ensures Fill(p, kind, 0) == (p, [])
  {
  }

  /** One more entry, or the end, when `done` are filled and `m` to come. */
  lemma FillThen(p: Pool, kind: Kind, n: nat, q: Pool, m: nat, done: seq<int>)
    requires Canvas.Valid(p) && Canvas.Valid(q) && m > 0
    requires Fill(p, kind, n).0 == Fill(q, kind, m).0 && Fill(p, kind, n).1 == done + Fill(q, kind, m).1
    ensures var (q', r) := AllocSet(q, kind);
            && Canvas.Valid(q')
            && (r.None? ==> Fill(p, kind, n).0 == q' && Fill(p, kind, n).1 == done)
            && (r.Some? ==> && Fill(p, kind, n).0 == Fill(q', kind, m - 1).0
                            && Fill(p, kind, n).1 == done + [Pack(kind, r.value)] + Fill(q', kind, m - 1).1)
  {
    hide AllocSet, Pack;
    SetIs(q, kind);
  }

  /** The canvases a kind uses, in the order they are allocated. */
  function Chosen(kind: Kind, c1: int, c2: int, c3: int, c4: int): (cs: seq<int>) {
    match kind
    case One => [c4]
    case Nv21 => [c3, c4]
    case Yuv => [c2, c3, c4]
    case Four => [c1, c2, c3, c4]
  }

  predicate IsFound(kind: Kind, c1: int, c2: int, c3: int, c4: int) {
    match kind
    case One => c4 > 0
    case Nv21 => c3 > 0 && c4 == c3 + 1
    case Yuv => c2 > 0 && c3 == c2 + 1 && c4 == c3 + 1
    case Four => c1 > 0 && c2 == c1 + 1 && c3 == c2 + 1 && c4 == c3 + 1
  }

  /** The packed word; canvas numbers being bytes, the shifted parts do not overlap. */
  function Word(kind: Kind, c1: int, c2: int, c3: int, c4: int): (v: int) {
    match kind
    case One => c4
    case Nv21 => c3 + c4 * 0x100 + c4 * 0x1_0000
    case Yuv => c2 + c3 * 0x100 + c4 * 0x1_0000
    case Four => c1 + c2 * 0x100 + c3 * 0x1_0000 + c4 * 0x100_0000
  }

  lemma ManyNone(p: Pool)
    requires Canvas.Valid(p)
    ensures AllocMany(p, 0) == (p, [])
  {
  }

  lemma ManyNext(p: Pool, n: nat)
    requires Canvas.Valid(p) && n > 0
    ensures var (p', c) := AllocOne(p);
            AllocMany(p, n).0 == AllocMany(p', n - 1).0 && AllocMany(p, n).1 == [c] + AllocMany(p', n - 1).1
  {
    hide AllocOne, Search;
  }

  lemma ReleaseNext(p: Pool, c: int, cs: seq<int>)
    ensures Release(p, [c] + cs) == Release(if c > 0 then FreeOne(p, c) else p, cs)
  {
  }

  lemma ReleaseFour(p: Pool, c1: int, c2: int, c3: int, c4: int)
    ensures var p1 := if c1 > 0 then FreeOne(p, c1) else p;
            var p2 := if c2 > 0 then FreeOne(p1, c2) else p1;
            var p3 := if c3 > 0 then FreeOne(p2, c3) else p2;
            Release(p, [c1, c2, c3, c4]) == if c4 > 0 then FreeOne(p3, c4) else p3
  {
    hide FreeOne;
    var p1 := if c1 > 0 then FreeOne(p, c1) else p;
    var p2 := if c2 > 0 then FreeOne(p1, c2) else p1;
    var p3 := if c3 > 0 then FreeOne(p2, c3) else p2;
    ReleaseNext(p, c1, [c2, c3, c4]);
    ReleaseNext(p1, c2, [c3, c4]);
    ReleaseNext(p2, c3, [c4]);
    ReleaseNext(p3, c4, []);
    assert [c1, c2, c3, c4] == [c1] + [c2, c3, c4] && [c2, c3, c4] == [c2] + [c3, c4] && [c3, c4] == [c3] + [c4];
    assert [c4] == [c4] + [];
  }

  lemma ReleaseZeros(p: Pool, kind: Kind, c1: int, c2: int, c3: int, c4: int)
    requires (kind != Four ==> c1 == 0) && (kind == One || kind == Nv21 ==> c2 == 0) && (kind == One ==> c3 == 0)
    ensures Release(p, [c1, c2, c3, c4]) == Release(p, Chosen(kind, c1, c2, c3, c4))
  {
    hide FreeOne, Release;
    ReleaseNext(p, c1, [c2, c3, c4]);
    ReleaseNext(p, c2, [c3, c4]);
    ReleaseNext(p, c3, [c4]);
    assert [c1, c2, c3, c4] == [c1] + [c2, c3, c4] && [c2, c3, c4] == [c2] + [c3, c4] && [c3, c4] == [c3] + [c4];
  }

  lemma ConsecutiveNext(c: int, cs: seq<int>, i: int)
    ensures Consecutive([c] + cs, i) <==> c == i && Consecutive(cs, i + 1)
  {
  }

  lemma PackedRun(kind: Kind, c1: int, c2: int, c3: int, c4: int)
    ensures var cs := Chosen(kind, c1, c2, c3, c4);
            && IsFound(kind, c1, c2, c3, c4) == Found(cs)
            && (Found(cs) ==> Word(kind, c1, c2, c3, c4) == Pack(kind, cs[0]))
  {
    hide Consecutive;
    var i := Chosen(kind, c1, c2, c3, c4)[0];
    ConsecutiveNext(c1, [c2, c3, c4], i);
    forall j { ConsecutiveNext(c2, [c3, c4], j); }
    forall j { ConsecutiveNext(c3, [c4], j); }
    forall j { ConsecutiveNext(c4, [], j); }
    assert [c1, c2, c3, c4] == [c1] + [c2, c3, c4] && [c2, c3, c4] == [c2] + [c3, c4] && [c3, c4] == [c3] + [c4];
    assert [c4] == [c4] + [];
    assert forall j :: Consecutive([], j) by { NothingConsecutive(); }
  }

  lemma NothingConsecutive()
    ensures forall j :: Consecutive([], j)
  {
  }
}
