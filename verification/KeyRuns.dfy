/**
 The whole key stack over runs: key writes, interruptions and boots of the
 store together with the card behave as one map that survives crashes.
 */
module KeyRuns {
  import opened Options
  import opened Bytes
  import opened Tlv
  import opened NormalKey
  import opened KeyStore
  import opened EmmcKey
  import EmmcRuns
  import opened StorageKey

  /** Card, driver memory, and the store with its block; `up` once a boot has loaded the store. */
  datatype System = System(disk: Disk, ram: Ram, keys: seq<Object>, raw: RawHead, block: Image, up: bool)

  /** A key write, with or without `memory` for it, or a boot, of which `n` block writes land. */
  datatype Event = Put(op: Op, memory: bool, n: nat) | Reboot(n: nat)

  /** The map the next completed boot loads. */
  ghost function Persisted(h: Hasher, d: Disk): (m: map<seq<byte>, Value>) {
    var l := ReadBlock(h, Boot(d, COPY_WRITES).0[0].area, EncHead(0, 0));
    if l.Loaded? && Good(h, l.keys) then Contents(l.keys) else map[]
  }

  ghost predicate Loadable(h: Hasher, d: Disk) {
    BootLoads(h, d, Persisted(h, d))
  }

  /** `normalkey_add` takes the key. */
  predicate Taken(keys: seq<Object>, op: Op, memory: bool)
    requires Sound(keys)
  {
    && op.Add? && Acceptable(op) && (Find(keys, op.name) < |keys| ==> keys[Find(keys, op.name)].attribute == op.attr)
    && (memory || !Allocates(keys, op.name, op.data))
  }

  /** One step of the stack. A key that finds no room stays in memory and spoils only the working block. */
  ghost predicate Step(h: Hasher, s: System, e: Event, s': System) {
    match e
    case Reboot(n) =>
      var (d, ram) := Boot(s.disk, n);
      && s'.disk == d && s'.ram == ram && s'.up == (n >= COPY_WRITES)
      && (s'.up ==> s'.block == d[0].area && ReadBlock(h, d[0].area, EncHead(0, 0)).Loaded?
                    && s'.keys == ReadBlock(h, d[0].area, EncHead(0, 0)).keys)
    case Put(op, memory, n) =>
      && s.up && s.ram.Valid() && Sound(s.keys) && op.Add?
      && if !Taken(s.keys, op, memory) then s' == s
         else
           && s'.keys == Apply(h, s.keys, op)
           && if !Fits(s'.keys, AREA_SIZE) then s'.disk == s.disk && s'.ram == s.ram && s'.up
              else
                var img := SavedImage(h, s'.keys, s.raw, s.block);
                (s'.disk, s'.ram) == KeyWrite(s.disk, s.ram, img, AREA_SIZE, n) && s'.up == (n >= 2 * COPY_WRITES)
  }

  /** The key is taken and the list with it fits the block. */
  predicate Saves(h: Hasher, keys: seq<Object>, op: Op, memory: bool)
    requires Sound(keys)
  {
    Taken(keys, op, memory) && Fits(Apply(h, keys, op), AREA_SIZE)
  }

  /** The collision this step could meet. */
  ghost predicate Clean(h: Hasher, s: System, e: Event) {
    match e
    case Reboot(_) => ValidFlag(s.disk) == 2 ==> EmmcRuns.CollisionFree(s.disk[0], s.disk[1].area)
    case Put(op, memory, _) =>
      Sound(s.keys) && Saves(h, s.keys, op, memory) ==>
        EmmcRuns.CollisionFree(s.disk[0], SavedImage(h, Apply(h, s.keys, op), s.raw, s.block))
  }

  ghost predicate Inv(h: Hasher, s: System) {
    && EmmcRuns.Intact(s.disk) && Loadable(h, s.disk)
    && (s.up ==> s.ram.Valid() && EmmcRuns.Recovered(s.disk) && Good(h, s.keys))
  }

  /**
   A map that survives crashes and a working copy of it: a write changes the
   copy and then the map, all or nothing; a boot starts the copy from the map.
   */
  ghost predicate MapStep(h: Hasher, s: System, e: Event, s': System) {
    var saved, saved' := Persisted(h, s.disk), Persisted(h, s'.disk);
    match e
    case Reboot(_) => saved' == saved && (s'.up ==> Sound(s'.keys) && Contents(s'.keys) == saved)
    case Put(op, memory, _) =>
      && Sound(s.keys)
      && var next := if Taken(s.keys, op, memory) then ApplyMap(h, Contents(s.keys), op) else Contents(s.keys);
      && saved' in {saved, next}
      && (s'.up ==> Sound(s'.keys) && Contents(s'.keys) == next)
      && (Saves(h, s.keys, op, memory) && s'.up ==> saved' == next)
      && (!Saves(h, s.keys, op, memory) ==> saved' == saved && s'.up)
  }

  lemma LoadsIsPersisted(h: Hasher, d: Disk, m: map<seq<byte>, Value>)
    requires BootLoads(h, d, m)
    ensures Persisted(h, d) == m && Loadable(h, d)
  {
  }

  lemma SameViewPersists(h: Hasher, d: Disk, d': Disk)
    requires EmmcRuns.Intact(d) && EmmcRuns.Intact(d') && View(d) == View(d') && Loadable(h, d)
    ensures Loadable(h, d') && Persisted(h, d') == Persisted(h, d)
  {
    hide BootLoads, View, Persisted;
    SameViewSameLoad(h, d, d', Persisted(h, d));
    LoadsIsPersisted(h, d', Persisted(h, d));
  }

  lemma RebootStep(h: Hasher, s: System, e: Event, s': System)
    requires Inv(h, s) && e.Reboot? && Clean(h, s, e) && Step(h, s, e, s')
    ensures Inv(h, s') && MapStep(h, s, e, s')
  {
    hide ReadBlock, Contents, Distinct, View, ValidFlag;
    EmmcRuns.BootStep(s.disk, e.n);
    SameViewPersists(h, s.disk, s'.disk);
    if s'.up {
      EmmcRuns.BootServesView(s.disk, e.n);
      EmmcRuns.BootServesView(s.disk, COPY_WRITES);
    }
  }

  lemma PutStep(h: Hasher, s: System, e: Event, s': System)
    requires Inv(h, s) && e.Put? && Clean(h, s, e) && Step(h, s, e, s')
    ensures Inv(h, s') && MapStep(h, s, e, s')
  {
    hide ReadBlock, Contents, Distinct, View, KeyWrite, Boot, WriteBlock, EncodeAll, Find, Persisted, Loadable,
      ApplyMap, Taken;
    var op := e.op;
    if Taken(s.keys, op, e.memory) {
      OpRefines(h, s.keys, op);
      if Fits(s'.keys, AREA_SIZE) {
        SavedStep(h, s, op, e.n);
      }
    }
  }

  /** The part of a key write that reaches the card. */
  lemma SavedStep(h: Hasher, s: System, op: Op, n: nat)
    requires Inv(h, s) && s.up && op.Add? && Fits(Apply(h, s.keys, op), AREA_SIZE)
    requires EmmcRuns.CollisionFree(s.disk[0], SavedImage(h, Apply(h, s.keys, op), s.raw, s.block))
    ensures var r := KeyWrite(s.disk, s.ram, SavedImage(h, Apply(h, s.keys, op), s.raw, s.block), AREA_SIZE, n);
            var next := ApplyMap(h, Contents(s.keys), op);
            && r.1.Valid() && EmmcRuns.Intact(r.0) && Loadable(h, r.0)
            && Persisted(h, r.0) in {Persisted(h, s.disk), next}
            && (n >= 2 * COPY_WRITES ==> EmmcRuns.Recovered(r.0) && Persisted(h, r.0) == next)
  {
    hide ReadBlock, Contents, Distinct, KeyWrite, Boot, WriteBlock, EncodeAll, Find, Apply, ApplyMap, BootLoads,
      EmmcRuns.CollisionFree;
    var keys := Apply(h, s.keys, op);
    var img := SavedImage(h, keys, s.raw, s.block);
    var d := KeyWrite(s.disk, s.ram, img, AREA_SIZE, n).0;
    OpRefines(h, s.keys, op);
    EmmcRuns.WriteView(s.disk, s.ram, img, n);
    EmmcRuns.CrashAtomicity(s.disk, s.ram, img);
    assert View(KeyWrite(s.disk, s.ram, img, AREA_SIZE, n).0) in {View(s.disk), img};
    if View(d) == img {
      SavedImageLoads(h, keys, s.raw, s.block, d);
      LoadsIsPersisted(h, d, Contents(keys));
    } else {
      SameViewPersists(h, s.disk, d);
    }
    if n >= 2 * COPY_WRITES {
      EmmcRuns.CompletedWrite(s.disk, s.ram, img, n);
    }
  }

  ghost predicate IsRun(h: Hasher, states: seq<System>, events: seq<Event>) {
    && |states| == |events| + 1
    && forall i | 0 <= i < |events| :: Step(h, states[i], events[i], states[i + 1]) && Clean(h, states[i], events[i])
  }

  lemma {:induction false} RunKeepsInv(h: Hasher, states: seq<System>, events: seq<Event>, i: nat)
    requires IsRun(h, states, events) && Inv(h, states[0]) && !states[0].up && i < |states|
    ensures Inv(h, states[i])
  {
    hide Inv, Step, Clean;
    if i == 0 {
    } else {
      RunKeepsInv(h, states, events, i - 1);
      var s, e, s' := states[i - 1], events[i - 1], states[i];
      if e.Reboot? { RebootStep(h, s, e, s'); } else { PutStep(h, s, e, s'); }
    }
  }

  /** Over every run that meets no collision, each step is a step of the crash-safe map. */
  lemma StackIsCrashSafeMap(h: Hasher, states: seq<System>, events: seq<Event>)
    requires IsRun(h, states, events) && Inv(h, states[0]) && !states[0].up
    ensures forall i | 0 <= i < |events| :: MapStep(h, states[i], events[i], states[i + 1])
  {
    hide MapStep, Clean, Loadable, EmmcRuns.Intact, Step;
    forall i | 0 <= i < |events| ensures MapStep(h, states[i], events[i], states[i + 1]) {
      var s, e, s' := states[i], events[i], states[i + 1];
      RunKeepsInv(h, states, events, i);
      if e.Reboot? { RebootStep(h, s, e, s'); } else { PutStep(h, s, e, s'); }
    }
  }

  /** A card never written, whose area 0 does not begin with the block mark, is such a start, with no keys. */
  lemma BlankStart(h: Hasher, s: System)
    requires !s.up && s.disk[0].info.magic == 0 && s.disk[1].info.magic == 0
    requires s.disk[0].area[..10] != MARK + [0]
    ensures Inv(h, s) && Persisted(h, s.disk) == map[]
  {
  }

  // -------------------------------------------------------------------------
  // The code takes these steps

  /** The objects behind a running stack, as one system. */
  ghost function SystemOf(k: NormalKeys, up: bool): (s: System)
    requires k.block.Length == AREA_SIZE
    reads k, k.card, k.store, k.block
  {
    System(k.card.disk, k.card.Memory(), k.store.keys, k.store.raw, k.block[..], up)
  }

  /** `_amlkey_write_normal` on a stack that is up; it goes down when the card stops taking blocks half-way. */
  method PutKey(k: NormalKeys, name: seq<byte>, data: seq<byte>, attr: u32, junk: NameBuf, memory: bool)
    returns (n: nat)
    requires k.Valid() && k.block.Length == AREA_SIZE && k.registered && k.store.inited == 2 && Sound(k.store.keys)
    modifies k.card, k.store, k.block
    ensures k.Valid() && Sound(k.store.keys) && k.store.inited == 2
    ensures var op := Add(name, data, attr, junk);
            var up := !Saves(k.store.h, old(k.store.keys), op, memory) || old(k.card.budget) >= 2 * COPY_WRITES;
            && Step(k.store.h, old(SystemOf(k, true)), Put(op, memory, old(k.card.budget)), SystemOf(k, up))
            && n == if Saves(k.store.h, old(k.store.keys), op, memory) && up then |data| else 0
  {
    hide Find, Fits, Apply, WriteBlock, KeyWrite, WellFormed, Hashable;
    n := k.Write(Some(name), Some(data), attr, junk, memory, []);
    ghost var op, h, keys := Add(name, data, attr, junk), k.store.h, old(k.store.keys);
    assert Taken(keys, op, memory) == Accepted(Some(name), Some(data), attr, keys, memory);
    if Saves(h, keys, op, memory) {
      ghost var b := WriteBlock(h, k.store.keys, old(k.store.raw), old(k.block[..]));
      assert b + [] == b;
    }
  }

  /**
   A boot: recovery of the card's copies, and if it completes, a fresh store
   loaded from the card. Of what follows, `more` block writes will land.
   */
  method PowerOn(h: Hasher, d: Disk, n: nat, more: nat) returns (k: NormalKeys)
    requires EmmcRuns.Intact(d) && Loadable(h, d)
    ensures k.Valid() && k.block.Length == AREA_SIZE && fresh(k.card) && fresh(k.store) && fresh(k.block)
    ensures k.registered && k.store.h == h && (n >= COPY_WRITES ==> k.store.inited == 2)
    ensures forall s: System | s.disk == d :: Step(h, s, Reboot(n), SystemOf(k, n >= COPY_WRITES))
    ensures k.card.budget == n - Min(n, BootWrites(d)) + more
  {
    hide ReadBlock, Contents, Distinct, Boot, EmmcRuns.Intact, View, BootWrites;
    var card := new Card(d, n);
    card.Init();
    var store := new Store(h);
    var block := new byte[AREA_SIZE](_ => 0);
    k := new NormalKeys(card, store, block);
    card.budget := card.budget + more;
    if n >= COPY_WRITES {
      EmmcRuns.BootServesView(d, n);
      EmmcRuns.BootServesView(d, COPY_WRITES);
      var r, defined := k.Init();
      assert card.disk[0].area[..AREA_SIZE] + [] == card.disk[0].area;
      assert block[..] == card.disk[0].area;
    }
  }
}
