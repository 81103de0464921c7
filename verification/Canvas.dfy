/**
 The canvas pool: single canvases found by a wrapping next-fit search,
 consecutive runs of one to four canvases packed into one 32-bit word, and
 tables of such words. Values here; `CanvasPool` has the pool itself.
 */
module Canvas {
  import opened Options

  /** `used` is the bitmap, `next` the index the next search starts from. */
  datatype Pool = Pool(max: nat, used: set<int>, next: int, free: int)

  /** The kinds of run, by the number of canvases they take. */
  datatype Kind = One | Nv21 | Yuv | Four

  function Num(kind: Kind): (n: nat)
    ensures 1 <= n <= 4
  {
    match kind case One => 1 case Nv21 => 2 case Yuv => 3 case Four => 4
  }

  /** Canvas numbers fit a byte, and the cursor is in the pool and never at canvas 0. */
  ghost predicate Valid(p: Pool) {
    2 <= p.max <= 256 && 1 <= p.next < p.max && forall i | i in p.used :: 0 <= i < p.max
  }

  // -------------------------------------------------------------------------
  // One canvas

  /** `find_next_zero_bit` */
  function FirstFree(p: Pool, from: int): (i: int)
    requires 0 <= from <= p.max
    ensures from <= i <= p.max && (i < p.max ==> i !in p.used) && forall k | from <= k < i :: k in p.used
    decreases p.max - from
  {
    if from == p.max || from !in p.used then from else FirstFree(p, from + 1)
  }

  function Search(p: Pool): (i: int)
    requires 0 <= p.next <= p.max && 1 <= p.max
  {
    var i := FirstFree(p, p.next);
    if i < p.max then i
    else if p.next <= 1 then -1
    else
      var j := FirstFree(p, 1);
      if j < p.max then j else -1
  }

  /** The search fails only when everything above canvas 0 is taken, and finds the first free canvas going round. */
  lemma SearchComplete(p: Pool)
    requires Valid(p)
    ensures Search(p) == -1 <==> forall k | 1 <= k < p.max :: k in p.used
    ensures Search(p) != -1 ==> 1 <= Search(p) < p.max && Search(p) !in p.used
    ensures Search(p) >= p.next ==> forall k | p.next <= k < Search(p) :: k in p.used
    ensures 0 <= Search(p) < p.next ==> forall k | p.next <= k < p.max || 1 <= k < Search(p) :: k in p.used
  {
  }

  function Past(p: Pool, i: int): (next: int) {
    if i + 1 < p.max then i + 1 else 1
  }

  function AllocOne(p: Pool): (r: (Pool, int))
    requires Valid(p)
    ensures Valid(r.0) && r.0.max == p.max
    ensures r.1 == Search(p)
    ensures if r.1 == -1 then r.0 == p
            else && 1 <= r.1 < p.max && r.1 !in p.used && r.0.used == p.used + {r.1}
                 && r.0.next == (if r.1 == p.max - 1 then 1 else r.1 + 1) && r.0.free == p.free - 1
  {
    SearchComplete(p);
    var i := Search(p);
    if i < 0 then (p, -1) else (p.(used := p.used + {i}, next := Past(p, i), free := p.free - 1), i)
  }

  function FreeOne(p: Pool, i: int): (q: Pool)
    ensures 0 <= i < p.max ==> q.used == p.used - {i}
    ensures Valid(p) ==> Valid(q) && q.used == p.used - {i}
    ensures q.max == p.max && q.next == p.next && q.free == if i < 0 || i >= p.max then p.free else p.free + 1
  {
    if 0 <= i < p.max then p.(used := p.used - {i}, free := p.free + 1) else p
  }

  // -------------------------------------------------------------------------
  // Runs

  /** `n` single allocations in a row. */
  function AllocMany(p: Pool, n: nat): (r: (Pool, seq<int>))
    requires Valid(p)
    ensures Valid(r.0) && r.0.max == p.max && |r.1| == n
    decreases n
  {
    if n == 0 then (p, [])
    else
      var (p', c) := AllocOne(p);
      var (q, cs) := AllocMany(p', n - 1);
      (q, [c] + cs)
  }

  /** The canvases really allocated, failed allocations being -1. */
  function Taken(cs: seq<int>): (s: set<int>) {
    if cs == [] then {} else (if cs[0] > 0 then {cs[0]} else {}) + Taken(cs[1..])
  }

  function Count(cs: seq<int>): (n: nat) {
    if cs == [] then 0 else (if cs[0] > 0 then 1 else 0) + Count(cs[1..])
  }

  /** Frees the canvases that were really allocated, as the rollback does. */
  function Release(p: Pool, cs: seq<int>): (q: Pool)
    decreases |cs|
  {
    if cs == [] then p else Release(if cs[0] > 0 then FreeOne(p, cs[0]) else p, cs[1..])
  }

  /** `i`, `i + 1` and so on. */
  predicate Consecutive(cs: seq<int>, i: int)
    decreases |cs|
  {
    cs == [] || (cs[0] == i && Consecutive(cs[1..], i + 1))
  }

  predicate Found(cs: seq<int>) {
    cs != [] && cs[0] > 0 && Consecutive(cs, cs[0])
  }

  function Range(i: int, n: nat): (s: set<int>)
    ensures forall k :: k in s <==> i <= k < i + n
    decreases n
  {
    if n == 0 then {} else {i} + Range(i + 1, n - 1)
  }

  /** `n` free canvases in the pool from `i` on, canvas 0 not among them. */
  predicate RunAt(p: Pool, i: int, n: nat) {
    1 <= i && i + n <= p.max && forall k | i <= k < i + n :: k !in p.used
  }

  /** One turn of the retry loop: the first canvas of the run, or everything back as it was. */
  function Attempt(p: Pool, kind: Kind): (r: (Pool, Option<int>))
    requires Valid(p)
  {
    var (q, cs) := AllocMany(p, Num(kind));
    if Found(cs) then (q, Some(cs[0])) else (Release(q, cs), None)
  }

  lemma {:induction false} ManyTake(p: Pool, n: nat)
    requires Valid(p)
    ensures var (q, cs) := AllocMany(p, n);
            && q.used == p.used + Taken(cs) && Taken(cs) !! p.used
            && (forall i | i in Taken(cs) :: 0 < i < p.max)
            && q.free == p.free - Count(cs)
    decreases n
  {
    hide Search, Valid;
    if n == 0 {
    } else {
      ManyTake(AllocOne(p).0, n - 1);
    }
  }

  lemma {:induction false} ReleaseIs(p: Pool, cs: seq<int>)
    requires forall i | i in Taken(cs) :: i < p.max
    ensures Release(p, cs) == p.(used := p.used - Taken(cs), free := p.free + Count(cs))
    decreases |cs|
  {
    if cs == [] {
    } else {
      assert Taken(cs[1..]) <= Taken(cs);
      assert cs[0] > 0 ==> cs[0] in Taken(cs);
      ReleaseIs(if cs[0] > 0 then FreeOne(p, cs[0]) else p, cs[1..]);
    }
  }

  /** Searching from a free canvas finds it. */
  lemma SearchHere(p: Pool)
    requires Valid(p) && p.next !in p.used
    ensures Search(p) == p.next
  {
  }

  lemma {:induction false} ManyFinds(p: Pool, n: nat)
    requires Valid(p) && RunAt(p, Search(p), n)
    ensures Consecutive(AllocMany(p, n).1, Search(p))
    decreases n
  {
    hide Search;
    if n == 0 {
    } else {
      var (p', i) := AllocOne(p);
      if n > 1 {
        SearchHere(p');
        ManyFinds(p', n - 1);
      }
      assert AllocMany(p, n).1[1..] == AllocMany(p', n - 1).1;
    }
  }

  lemma {:induction false} ManyConsecutive(p: Pool, n: nat, i: int)
    requires Valid(p) && i >= 1 && n >= 1 && Consecutive(AllocMany(p, n).1, i)
    ensures RunAt(p, i, n)
    ensures var q := AllocMany(p, n).0;
            q.used == p.used + Range(i, n) && q.next == Past(p, i + n - 1) && q.free == p.free - n
    decreases n
  {
    hide Search, Valid;
    var (p', c) := AllocOne(p);
    assert AllocMany(p, n).1[1..] == AllocMany(p', n - 1).1;
    assert Range(i, n) == {i} + Range(i + 1, n - 1);
    if n > 1 {
      ManyConsecutive(p', n - 1, i + 1);
    }
  }

  lemma FirstIsSearch(p: Pool, n: nat)
    requires Valid(p) && n >= 1
    ensures AllocMany(p, n).1[0] == Search(p)
  {
  }

  /** A turn succeeds exactly when a long enough run starts at the first free canvas; a failed turn undoes itself. */
  lemma AttemptIs(p: Pool, kind: Kind)
    requires Valid(p)
    ensures var (q, r) := Attempt(p, kind);
            var n := Num(kind);
            && (r.Some? <==> RunAt(p, Search(p), n))
            && (r.Some? ==>
                  && r.value == Search(p) && Valid(q) && q.max == p.max && q.used == p.used + Range(r.value, n)
                  && q.next == (if r.value + n == p.max then 1 else r.value + n) && q.free == p.free - n)
            && (r.None? ==> q == p.(next := q.next))
  {
    hide Search, AllocMany, Release, Consecutive, Range, RunAt;
    var n := Num(kind);
    var (q, cs) := AllocMany(p, n);
    FirstIsSearch(p, n);
    if Found(cs) {
      ManyConsecutive(p, n, cs[0]);
      RunStart(p, cs[0], n);
    } else {
      if RunAt(p, Search(p), n) {
        ManyFinds(p, n);
        RunStart(p, Search(p), n);
      }
      ManyTake(p, n);
      ReleaseIs(q, cs);
    }
  }

  lemma RunStart(p: Pool, i: int, n: nat)
    requires RunAt(p, i, n)
    ensures i > 0 && i + n <= p.max
  {
  }

  /** Where the cursor goes after a failed turn. */
  function Retry(p: Pool, kind: Kind): (next: int) {
    if p.next + 1 < p.max - Num(kind) then p.next + 1 else 1
  }

  /**
   What the whole retry loop comes to: its start never advances, so only two
   cursors are ever tried.
   */
  function AllocSet(p: Pool, kind: Kind): (r: (Pool, Option<int>))
    requires Valid(p)
  {
    var once := Attempt(p, kind);
    if once.1.Some? then once
    else
      var p' := p.(next := Retry(p, kind));
      var again := Attempt(p', kind);
      if again.1.Some? then again else (p', None)
  }

  /** A success hands out a run of free canvases, none of them canvas 0; a failure changes nothing but the cursor. */
  lemma SetIs(p: Pool, kind: Kind)
    requires Valid(p)
    ensures var (q, r) := AllocSet(p, kind);
            var n := Num(kind);
            var p' := p.(next := if p.next + n + 1 >= p.max then 1 else p.next + 1);
            && Valid(q) && q.max == p.max
            && (r.Some? <==> RunAt(p, Search(p), n) || RunAt(p', Search(p'), n))
            && (r.Some? ==> && r.value == Search(if RunAt(p, Search(p), n) then p else p') && RunAt(p, r.value, n)
                            && q.used == p.used + Range(r.value, n) && q.free == p.free - n
                            && q.next == if r.value + n == p.max then 1 else r.value + n)
            && (r.None? ==> q == p')
  {
    hide Search, Attempt;
    AttemptIs(p, kind);
    AttemptIs(p.(next := Retry(p, kind)), kind);
  }

  /** The search for a run is not complete: canvases 6 and 7 are free together, and the call fails. */
  lemma RunMissed()
    ensures var p := Pool(8, {1, 3, 5}, 1, 0);
            Valid(p) && RunAt(p, 6, 2) && AllocSet(p, Nv21).1 == None
  {
    hide AllocSet, Range, Retry;
    var p := Pool(8, {1, 3, 5}, 1, 0);
    SetIs(p, Nv21);
    assert FirstFree(p, 1) == 2;
    assert FirstFree(p.(next := 2), 2) == 2;
    assert 3 in p.used;
  }

  // -------------------------------------------------------------------------
  // Packed words

  /** The word for a run that starts at `i`: its canvases in the low bytes, the second one twice for `Nv21`. */
  function Pack(kind: Kind, i: int): (v: int) {
    match kind
    case One => i
    case Nv21 => i + (i + 1) * 0x100 + (i + 1) * 0x1_0000
    case Yuv => i + (i + 1) * 0x100 + (i + 2) * 0x1_0000
    case Four => i + (i + 1) * 0x100 + (i + 2) * 0x1_0000 + (i + 3) * 0x100_0000
  }

  function Byte(v: int, k: int): (b: int)
    ensures 0 <= b < 256
  {
    (if k == 0 then v else if k == 1 then v / 0x100 else if k == 2 then v / 0x1_0000 else v / 0x100_0000) % 256
  }

  function Bytes(v: int): (s: set<int>) {
    {Byte(v, 0), Byte(v, 1), Byte(v, 2), Byte(v, 3)}
  }

  /** What unpacking names beside the run: canvas 0, from the empty high byte of all but the longest kind. */
  function Extra(kind: Kind): (s: set<int>) {
    if kind == Four then {} else {0}
  }

  /** The four bytes of the word for a run from `i` on, plane by plane. */
  predicate NamesRun(kind: Kind, i: int, v: int) {
    && 0 <= v < 0x1_0000_0000 && Byte(v, 0) == i
    && Byte(v, 1) == (if kind == One then 0 else i + 1)
    && Byte(v, 2) == (match kind case One => 0 case Nv21 => i + 1 case Yuv => i + 2 case Four => i + 2)
    && Byte(v, 3) == (if kind == Four then i + 3 else 0)
  }

  lemma Unpack(kind: Kind, i: int)
    requires 1 <= i && i + Num(kind) <= 256
    ensures NamesRun(kind, i, Pack(kind, i))
    ensures Bytes(Pack(kind, i)) == Range(i, Num(kind)) + Extra(kind)
  {
    hide Byte, Range;
    match kind
    case One => FourBytes(i, 0, 0, 0);
    case Nv21 => FourBytes(i, i + 1, i + 1, 0);
    case Yuv => FourBytes(i, i + 1, i + 2, 0);
    case Four => FourBytes(i, i + 1, i + 2, i + 3);
  }

  lemma FourBytes(a: int, b: int, c: int, d: int)
    requires 0 <= a < 256 && 0 <= b < 256 && 0 <= c < 256 && 0 <= d < 256
    ensures var v := a + b * 0x100 + c * 0x1_0000 + d * 0x100_0000;
            0 <= v < 0x1_0000_0000 && Byte(v, 0) == a && Byte(v, 1) == b && Byte(v, 2) == c && Byte(v, 3) == d
  {
    var v := a + b * 0x100 + c * 0x1_0000 + d * 0x100_0000;
    assert v / 0x100 == b + c * 0x100 + d * 0x1_0000;
    assert v / 0x1_0000 == c + d * 0x100;
    assert v / 0x100_0000 == d;
  }

  /** Frees the bytes of a word, each once. */
  function FreeEntry(p: Pool, v: int): (q: Pool) {
    var c1, c2, c3, c4 := Byte(v, 0), Byte(v, 1), Byte(v, 2), Byte(v, 3);
    var p1 := FreeOne(p, c1);
    var p2 := if c2 != c1 then FreeOne(p1, c2) else p1;
    var p3 := if c3 != c2 && c3 != c1 then FreeOne(p2, c3) else p2;
    if c4 != c3 && c4 != c2 && c4 != c1 then FreeOne(p3, c4) else p3
  }

  lemma FreeEntryIs(p: Pool, v: int)
    requires Valid(p)
    ensures var q := FreeEntry(p, v);
            Valid(q) && q.max == p.max && q.next == p.next && q.used == p.used - Bytes(v)
  {
  }

  // -------------------------------------------------------------------------
  // Tables

  function FreeAll(p: Pool, tab: seq<int>): (q: Pool)
    decreases |tab|
  {
    if tab == [] then p else FreeAll(FreeEntry(p, tab[0]), tab[1..])
  }

  /** Allocates up to `k` entries, stopping at the first failure. */
  function Fill(p: Pool, kind: Kind, k: nat): (r: (Pool, seq<int>))
    requires Valid(p)
    ensures |r.1| <= k
    decreases k
  {
    if k == 0 then (p, [])
    else
      SetIs(p, kind);
      var (q, r) := AllocSet(p, kind);
      if r.None? then (q, [])
      else
        var (q', tab) := Fill(q, kind, k - 1);
        (q', [Pack(kind, r.value)] + tab)
  }

  function AllBytes(tab: seq<int>): (s: set<int>) {
    if tab == [] then {} else Bytes(tab[0]) + AllBytes(tab[1..])
  }

  /** Every word is a packed run, and no two share a canvas. */
  ghost predicate Separate(kind: Kind, tab: seq<int>) {
    tab != [] ==>
      && (exists i :: 1 <= i && i + Num(kind) <= 256 && tab[0] == Pack(kind, i))
      && Bytes(tab[0]) * AllBytes(tab[1..]) <= Extra(kind)
      && Separate(kind, tab[1..])
  }

  /** What filling takes was free before, and is named by exactly one word each. */
  lemma {:induction false} FillIs(p: Pool, kind: Kind, k: nat)
    requires Valid(p)
    ensures var (q, tab) := Fill(p, kind, k);
            && Valid(q) && q.max == p.max && Separate(kind, tab)
            && q.used == p.used + (AllBytes(tab) - {0})
            && (AllBytes(tab) - {0}) !! p.used
            && (0 in AllBytes(tab) <==> tab != [] && kind != Four)
    decreases k
  {
    hide AllocSet, Search, RunAt, Pack, Bytes, Range, Separate;
    if k > 0 {
      SetIs(p, kind);
      var (q, r) := AllocSet(p, kind);
      if r.Some? {
        FillIs(q, kind, k - 1);
        RunIs(p, r.value, Num(kind));
        Unpack(kind, r.value);
        var tab := Fill(q, kind, k - 1).1;
        assert ([Pack(kind, r.value)] + tab)[1..] == tab;
        SeparateCons(kind, r.value, tab);
      } else {
        SeparateNone(kind);
      }
    } else {
      SeparateNone(kind);
    }
  }

  lemma RunIs(p: Pool, i: int, n: nat)
    requires RunAt(p, i, n)
    ensures 1 <= i && i + n <= p.max && Range(i, n) !! p.used && 0 !in Range(i, n)
  {
  }

  lemma SeparateNone(kind: Kind)
    ensures Separate(kind, [])
  {
  }

  lemma SeparateCons(kind: Kind, i: int, tab: seq<int>)
    requires Separate(kind, tab) && 1 <= i && i + Num(kind) <= 256
    requires Bytes(Pack(kind, i)) * AllBytes(tab) <= Extra(kind)
    ensures Separate(kind, [Pack(kind, i)] + tab)
  {
  }

  lemma {:induction false} FreeAllIs(p: Pool, tab: seq<int>)
    requires Valid(p)
    ensures var q := FreeAll(p, tab);
            Valid(q) && q.max == p.max && q.next == p.next && q.used == p.used - AllBytes(tab)
    decreases |tab|
  {
    hide FreeEntry, Bytes;
    if tab == [] {
    } else {
      FreeEntryIs(p, tab[0]);
      FreeAllIs(FreeEntry(p, tab[0]), tab[1..]);
    }
  }

  /** Freeing the word of a run counts its canvases, and canvas 0 for an empty high byte. */
  lemma FreeEntryCounts(p: Pool, kind: Kind, i: int)
    requires Valid(p) && 1 <= i && i + Num(kind) <= p.max
    ensures FreeEntry(p, Pack(kind, i)).free == p.free + Num(kind) + if kind == Four then 0 else 1
  {
    hide Byte, Pack;
    Unpack(kind, i);
  }

  lemma {:induction false} FillCounts(p: Pool, kind: Kind, k: nat, f: Pool)
    requires Valid(p) && Valid(f) && f.max == p.max
    ensures var (q, tab) := Fill(p, kind, k);
            && q.free == p.free - Num(kind) * |tab|
            && FreeAll(f, tab).free == f.free + Num(kind) * |tab| + if kind == Four then 0 else |tab|
    decreases k
  {
    hide AllocSet, Search, Pack, FreeEntry;
    if k == 0 {
    } else {
      SetIs(p, kind);
      var (q, r) := AllocSet(p, kind);
      if r.Some? {
        var v, tab := Pack(kind, r.value), Fill(q, kind, k - 1).1;
        FreeEntryIs(f, v);
        FreeEntryCounts(f, kind, r.value);
        FillCounts(q, kind, k - 1, FreeEntry(f, v));
        assert ([v] + tab)[1..] == tab;
        assert Num(kind) * |[v] + tab| == Num(kind) * |tab| + Num(kind);
      }
    }
  }

  /**
   Freeing what a table allocation took, whether it filled the table or
   stopped half-way and wherever the cursor then is, restores the bitmap at
   every canvas but 0, which is left free exactly when it was before or some
   word had an empty high byte. The count of free canvases is not restored: it
   ends one too high for each word with an empty high byte.
   */
  lemma TableRestores(p: Pool, kind: Kind, k: nat, next: int)
    requires Valid(p) && 1 <= next < p.max
    ensures var (q, tab) := Fill(p, kind, k);
            var f := FreeAll(q.(next := next), tab);
            && Valid(f) && f.next == next && f.used == p.used - (if tab != [] && kind != Four then {0} else {})
            && f.free == p.free + if kind == Four then 0 else |tab|
  {
    hide Fill, FreeAll, AllBytes, Separate;
    var (q, tab) := Fill(p, kind, k);
    FillIs(p, kind, k);
    FreeAllIs(q.(next := next), tab);
    FillCounts(p, kind, k, q.(next := next));
  }
}
