/**
 What the two-copy key area promises over whole runs of writes, interruptions
 and boots: one atomic image, ordered stamps, and recovery that converges.
 */
module EmmcRuns {
  import opened Bytes
  import opened EmmcKey

  // -------------------------------------------------------------------------
  // One write, interrupted anywhere

  /** What a completed boot leaves: copy 0 is good, or nothing was ever written. */
  predicate Recovered(d: Disk) {
    ValidCopy(d[0]) || (d[0].info.magic == 0 && d[1].info.magic == 0)
  }

  /** What holds at every instant: some copy is good, or nothing was ever written. */
  predicate Intact(d: Disk) {
    ValidCopy(d[1]) || Recovered(d)
  }

  /** A half-replaced area 0 that copy 0's record accepts although it is neither image. */
  predicate Collision(c: Copy, buf: Image, k: nat)
    requires k <= AREA_BLOCKS
  {
    var t := Torn(c.area, buf, k);
    ValidCopy(Copy(t, c.info)) && t != c.area && t != buf
  }

  /** No half-replaced area 0 is taken for a good one. */
  ghost predicate CollisionFree(c: Copy, buf: Image) {
    forall k: nat | k <= AREA_BLOCKS :: !Collision(c, buf, k)
  }

  lemma TornEnds(a: Image, buf: Image)
    ensures Torn(a, buf, 0) == a
    ensures Torn(a, buf, AREA_BLOCKS) == buf
  {
  }

  /** The image a boot would serve after `n` block writes of a key write. */
  lemma WriteView(d: Disk, ram: Ram, buf: Image, n: nat)
    requires ram.Valid() && Recovered(d)
    ensures var d' := KeyWrite(d, ram, buf, AREA_SIZE, n).0;
            && Intact(d')
            && (n < COPY_WRITES ==> Recovered(d') && View(d') == View(d))
            && (n >= COPY_WRITES ==>
                  var t := Torn(d[0].area, buf, Min(n - COPY_WRITES, AREA_BLOCKS));
                  && ValidCopy(d'[1]) && d'[1].area == buf && d'[0].area == t
                  && (n < 2 * COPY_WRITES ==> d'[0].info == d[0].info
                                              && View(d') == if ValidCopy(Copy(t, d[0].info)) then t else buf)
                  && (n >= 2 * COPY_WRITES ==> d'[0] == d'[1] && View(d') == buf))
  {
    TornEnds(d[1].area, buf);
    TornEnds(d[0].area, buf);
  }

  /**
   Crash atomicity, exactly: every interruption of a write from a recovered
   disk shows the whole old or the whole new image to the next boot if and
   only if no half-replaced area 0 matches the checksum copy 0 already has.
   */
  lemma CrashAtomicity(d: Disk, ram: Ram, buf: Image)
    requires ram.Valid() && Recovered(d)
    ensures (forall n: nat :: View(KeyWrite(d, ram, buf, AREA_SIZE, n).0) in {View(d), buf})
            <==> CollisionFree(d[0], buf)
  {
    hide KeyWrite, Torn, Checksum;
    if CollisionFree(d[0], buf) {
      forall n: nat ensures View(KeyWrite(d, ram, buf, AREA_SIZE, n).0) in {View(d), buf} {
        WriteView(d, ram, buf, n);
        if COPY_WRITES <= n < 2 * COPY_WRITES {
          assert !Collision(d[0], buf, Min(n - COPY_WRITES, AREA_BLOCKS));
        }
      }
    } else {
      var k: nat :| k <= AREA_BLOCKS && Collision(d[0], buf, k);
      WriteView(d, ram, buf, COPY_WRITES + k);
    }
  }

  /** The image whose only non-zero word is word `i`, a one. */
  function OneAt(i: nat): (a: Image) {
    seq(AREA_SIZE, k => if k == 4 * i then 1 else 0)
  }

  lemma {:induction false} SumOfOne(i: nat, n: nat)
    requires 4 * n <= AREA_SIZE
    ensures WordSum(OneAt(i), n) == if i < n then 1 else 0
  {
    if n == 0 {
    } else {
      SumOfOne(i, n - 1);
    }
  }

  /** The condition is needed: an interrupted write whose first block moves a one serves neither image. */
  lemma MixtureServed(stamp: u32)
    ensures var c := Copy(OneAt(0), Info(1, stamp, 9));
            var buf: Image := seq(AREA_SIZE, k => if k == 4 || k == BLOCK_SIZE then 1 else 0);
            && Recovered([c, c])
            && View(KeyWrite([c, c], Ram([c.info, c.info], stamp), buf, AREA_SIZE, COPY_WRITES + 1).0) == OneAt(1)
            && OneAt(1) != OneAt(0) && OneAt(1) != buf
  {
    hide WordSum;
    var c := Copy(OneAt(0), Info(1, stamp, 9));
    var buf: Image := seq(AREA_SIZE, k => if k == 4 || k == BLOCK_SIZE then 1 else 0);
    SumOfOne(0, |OneAt(0)| / 4);
    SumOfOne(1, |OneAt(1)| / 4);
    assert Torn(OneAt(0), buf, 1) == OneAt(1);
    WriteView([c, c], Ram([c.info, c.info], stamp), buf, COPY_WRITES + 1);
    assert OneAt(1)[4] == 1 && OneAt(0)[4] == 0;
    assert OneAt(1)[BLOCK_SIZE] == 0 && buf[BLOCK_SIZE] == 1;
  }

  /** A write that runs to the end is what the next boot serves, and area 0 already holds it. */
  lemma CompletedWrite(d: Disk, ram: Ram, buf: Image, n: nat)
    requires ram.Valid() && Recovered(d) && n >= 2 * COPY_WRITES
    ensures var d' := KeyWrite(d, ram, buf, AREA_SIZE, n).0;
            Recovered(d') && View(d') == buf == d'[0].area && d'[0] == d'[1]
  {
    WriteView(d, ram, buf, n);
  }

  lemma {:induction false} WordSumMonotone(s: seq<byte>, m: nat, n: nat)
    requires m <= n && 4 * n <= |s|
    ensures WordSum(s, m) <= WordSum(s, n)
    ensures WordSum(s, m) == WordSum(s, n) <==> forall i | m <= i < n :: U32At(s, 4 * i) == 0
    decreases n
  {
    if m < n {
      WordSumMonotone(s, m, n - 1);
    }
  }

  /**
   A write told of fewer than 256 KiB records the sum of those bytes, while a
   boot sums the whole area: the copy passes if and only if the words past
   `length` are zero.
   */
  lemma ShortWriteValid(buf: Image, length: nat, stamp: u32)
    requires length <= AREA_SIZE
    ensures ValidCopy(Copy(buf, Info(WordSum(buf, length / 4), stamp, 9)))
            <==> forall i | length / 4 <= i < AREA_SIZE / 4 :: U32At(buf, 4 * i) == 0
  {
    WordSumMonotone(buf, length / 4, AREA_SIZE / 4);
  }

  /** With zero words past `length`, a short write is the write of the whole image, at every interruption. */
  lemma ShortWriteSame(d: Disk, ram: Ram, buf: Image, length: nat, n: nat)
    requires ram.Valid() && length <= AREA_SIZE
    requires forall i | length / 4 <= i < AREA_SIZE / 4 :: U32At(buf, 4 * i) == 0
    ensures KeyWrite(d, ram, buf, length, n) == KeyWrite(d, ram, buf, AREA_SIZE, n)
  {
    hide WriteOne;
    WordSumMonotone(buf, length / 4, AREA_SIZE / 4);
  }

  /** A write of any length that runs to the end leaves two equal copies of the image, which no boot changes. */
  lemma ShortWriteStays(d: Disk, ram: Ram, buf: Image, length: nat, n: nat, m: nat)
    requires ram.Valid() && length <= AREA_SIZE && n >= 2 * COPY_WRITES
    ensures var d' := KeyWrite(d, ram, buf, length, n).0;
            && d'[0] == d'[1] && d'[0].area == buf && Boot(d', m).0 == d'
            && (ValidCopy(d'[0]) <==> forall i | length / 4 <= i < AREA_SIZE / 4 :: U32At(buf, 4 * i) == 0)
  {
    hide WordSum;
    TornEnds(d[1].area, buf);
    TornEnds(d[0].area, buf);
    ShortWriteValid(buf, length, ToU32(ram.stamp + 1));
  }

  /** The half-replaced area 0 is always one of the two images, as when they differ in one block at most. */
  ghost predicate NeverMixed(old0: Image, buf: Image) {
    forall k: nat | k <= AREA_BLOCKS :: Torn(old0, buf, k) in {old0, buf}
  }

  /** What a boot would serve after `n` block writes of a short write whose words past `length` are not all zero. */
  lemma ShortWriteView(d: Disk, ram: Ram, buf: Image, length: nat, n: nat)
    requires ram.Valid() && Recovered(d) && length <= AREA_SIZE
    requires !(forall i | length / 4 <= i < AREA_SIZE / 4 :: U32At(buf, 4 * i) == 0)
    ensures var d' := KeyWrite(d, ram, buf, length, n).0;
            && View(d) == d[0].area && (n < COPY_WRITES ==> View(d') == d[0].area)
            && (n >= COPY_WRITES ==> View(d') == Torn(d[0].area, buf, Min(n - COPY_WRITES, AREA_BLOCKS)))
  {
    hide WordSum, Torn;
    TornEnds(d[1].area, buf);
    TornEnds(d[0].area, buf);
    ShortWriteValid(buf, length, ToU32(ram.stamp + 1));
  }

  /**
   A short write whose words past `length` are not all zero leaves no valid
   copy behind, so its interruptions are atomic exactly when area 0 is never a
   mixture, whatever the checksums.
   */
  lemma ShortWriteAtomicity(d: Disk, ram: Ram, buf: Image, length: nat)
    requires ram.Valid() && Recovered(d) && length <= AREA_SIZE
    requires !(forall i | length / 4 <= i < AREA_SIZE / 4 :: U32At(buf, 4 * i) == 0)
    ensures (forall n: nat :: View(KeyWrite(d, ram, buf, length, n).0) in {View(d), buf})
            <==> NeverMixed(d[0].area, buf)
  {
    hide KeyWrite, Torn, WordSum, ValidCopy;
    if NeverMixed(d[0].area, buf) {
      forall n: nat ensures View(KeyWrite(d, ram, buf, length, n).0) in {View(d), buf} {
        ShortWriteView(d, ram, buf, length, n);
      }
    } else {
      var k: nat :| k <= AREA_BLOCKS && Torn(d[0].area, buf, k) !in {d[0].area, buf};
      ShortWriteView(d, ram, buf, length, COPY_WRITES + k);
    }
  }

  // -------------------------------------------------------------------------
  // Boot

  /** A copy whose writes all land holds the buffer and its record. */
  lemma WriteOneWhole(d: Disk, ram: Ram, buf: Image, flag: nat, n: nat)
    requires ram.Valid() && 1 <= flag <= 2 && n >= COPY_WRITES
    ensures WriteOne(d, ram, buf, flag, n) == d[flag % 2 := Copy(buf, ram.infos[flag - 1])]
  {
    TornEnds(d[flag % 2].area, buf);
  }

  /** A completed boot leaves a recovered disk whose area 0 is the image of the disk it found. */
  lemma BootServesView(d: Disk, n: nat)
    requires Intact(d) && n >= COPY_WRITES
    ensures var d' := Boot(d, n).0;
            Recovered(d') && d'[0].area == View(d') == View(d)
  {
    RecoveryKeepsGoodCopy(d, n);
    if ValidFlag(d) == 2 {
      WriteOneWhole(d, LoadInfos(d), d[1].area, 2, n);
    }
  }

  /**
   With exactly one good copy, boot makes both copies equal to it, and the
   boot after that issues no block write at all.
   */
  lemma RecoveryConverges(d: Disk, n: nat, m: nat)
    requires ValidCopy(d[0]) != ValidCopy(d[1]) && n >= COPY_WRITES
    ensures var good := if ValidCopy(d[0]) then d[0] else d[1];
            var d' := Boot(d, n).0;
            d' == [good, good] && BootWrites(d') == 0 && Boot(d', m).0 == d'
  {
    if ValidCopy(d[0]) {
      WriteOneWhole(d, LoadInfos(d), d[0].area, 1, n);
    } else {
      WriteOneWhole(d, LoadInfos(d), d[1].area, 2, n);
    }
  }

  /** No boot, interrupted or not, touches a copy that is the only good one; with two good ones area 0 stays. */
  lemma RecoveryKeepsGoodCopy(d: Disk, n: nat)
    ensures ValidCopy(d[0]) ==> Boot(d, n).0[0] == d[0]
    ensures ValidCopy(d[1]) && !ValidCopy(d[0]) ==> Boot(d, n).0[1] == d[1]
  {
  }

  /** `stamp_after` reads the 32-bit distance: ahead by at most half the range, across the wrap. */
  lemma StampAfterIs(b: u32, k: nat)
    requires k < 0x1_0000_0000
    ensures StampAfter(ToU32(b + k), b) <==> 1 <= k <= 0x8000_0000
  {
  }

  /**
   With two valid copies a boot, interrupted anywhere, leaves the card as it
   is, both areas and both records, if and only if copy 1 is ahead, or the
   stamps agree, or there is nothing to change.
   */
  lemma TwoCopiesStay(d: Disk)
    requires ValidCopy(d[0]) && ValidCopy(d[1])
    ensures (forall n: nat :: Boot(d, n).0 == d) <==>
              || StampAfter(d[1].info.stamp, d[0].info.stamp)
              || !StampAfter(d[0].info.stamp, d[1].info.stamp)
              || d[0].area == d[1].area
  {
    hide ValidCopy, StampAfter;
    TwoCopiesBoot(d, COPY_WRITES);
    if StampAfter(d[1].info.stamp, d[0].info.stamp) || !StampAfter(d[0].info.stamp, d[1].info.stamp)
       || d[0].area == d[1].area {
      forall n: nat ensures Boot(d, n).0 == d {
        TwoCopiesBoot(d, n);
        TornSame(d[0].area, Min(n, AREA_BLOCKS));
      }
    }
  }

  /**
   What a boot with two valid copies does to each: copy 0 always stays; copy 1
   stays too unless copy 0 is ahead, and then area 0 replaces its area under
   its own record.
   */
  lemma TwoCopiesBoot(d: Disk, n: nat)
    requires ValidCopy(d[0]) && ValidCopy(d[1])
    ensures var d' := Boot(d, n).0;
            && d'[0] == d[0]
            && d'[1] == (if StampAfter(d[1].info.stamp, d[0].info.stamp)
                            || !StampAfter(d[0].info.stamp, d[1].info.stamp) then d[1]
                         else Copy(Torn(d[1].area, d[0].area, Min(n, AREA_BLOCKS)), d[1].info))
            && (n >= COPY_WRITES ==> Torn(d[1].area, d[0].area, Min(n, AREA_BLOCKS)) == d[0].area)
  {
    hide ValidCopy, StampAfter;
    TornSame(d[0].area, Min(n, AREA_BLOCKS));
    TornEnds(d[1].area, d[0].area);
  }

  /**
   What a boot with at most one valid copy does: the blocks that land carry
   that copy's area into the other one, its record last; with none the card stays.
   */
  lemma OneCopyBoot(d: Disk, n: nat)
    requires !(ValidCopy(d[0]) && ValidCopy(d[1]))
    ensures var d' := Boot(d, n).0;
            if !ValidCopy(d[0]) && !ValidCopy(d[1]) then d' == d
            else
              var good := if ValidCopy(d[0]) then 0 else 1;
              var bad := 1 - good;
              && d'[good] == d[good]
              && d'[bad].area == Torn(d[bad].area, d[good].area, Min(n, AREA_BLOCKS))
              && d'[bad].info == (if n >= COPY_WRITES then d[good].info else d[bad].info)
  {
    hide Torn;
  }

  /**
   What a boot leaves in memory: both records as found and the larger stamp,
   except that settling two valid copies makes both records the one of the copy
   that is behind, and its completion takes that record's stamp.
   */
  lemma BootMemory(d: Disk, n: nat)
    ensures var ram, i0, i1 := Boot(d, n).1, d[0].info, d[1].info;
            var found := ram.stamp in {i0.stamp, i1.stamp} && ram.stamp >= i0.stamp && ram.stamp >= i1.stamp;
            if !ValidCopy(d[0]) || !ValidCopy(d[1])
               || (!StampAfter(i1.stamp, i0.stamp) && !StampAfter(i0.stamp, i1.stamp))
            then ram.infos == [i0, i1] && found
            else
              var behind := if StampAfter(i1.stamp, i0.stamp) then i0 else i1;
              && ram.infos == [behind, behind]
              && if n >= COPY_WRITES then ram.stamp == behind.stamp else found
  {
    hide WriteOne, StampAfter;
  }

  /** The records a write leaves: each copy's comes with its last block, with the next stamp, the sum and the mark. */
  lemma WriteRecords(d: Disk, ram: Ram, buf: Image, length: nat, n: nat)
    requires ram.Valid() && length <= AREA_SIZE
    ensures var (d', ram') := KeyWrite(d, ram, buf, length, n);
            var sum, next := WordSum(buf, length / 4), if ram.stamp == 0xFFFF_FFFF then 0 else ram.stamp + 1;
            && d'[1].info == (if n >= COPY_WRITES then Info(sum, next, 9) else d[1].info)
            && d'[0].info == (if n >= 2 * COPY_WRITES then Info(sum, next, 9) else d[0].info)
            && ram'.stamp == ram.stamp && ram'.infos[0] == Info(sum, next, 9)
            && ram'.infos[1] == (if n >= COPY_WRITES then Info(sum, next, 9) else ram.infos[1])
  {
    hide Torn, WordSum;
  }

  // -------------------------------------------------------------------------
  // Runs

  /** A write of a whole image, or a boot, of which `n` block writes land. */
  datatype Event = Write(buf: Image, n: nat) | Reboot(n: nat)

  /** `up`: the driver is running; an interruption takes it down until a boot completes. */
  datatype State = State(disk: Disk, ram: Ram, up: bool)

  predicate Enabled(s: State, e: Event) {
    e.Write? ==> s.up && s.ram.Valid()
  }

  function Next(s: State, e: Event): (s': State)
    requires Enabled(s, e)
  {
    match e
    case Write(buf, n) =>
      var (d, ram) := KeyWrite(s.disk, s.ram, buf, AREA_SIZE, n); State(d, ram, n >= 2 * COPY_WRITES)
    case Reboot(n) =>
      var (d, ram) := Boot(s.disk, n); State(d, ram, n >= COPY_WRITES)
  }

  ghost predicate IsRun(states: seq<State>, events: seq<Event>) {
    && |states| == |events| + 1
    && forall i | 0 <= i < |events| :: Enabled(states[i], events[i]) && states[i + 1] == Next(states[i], events[i])
  }

  /** Never written, driver not yet started. */
  predicate Blank(s: State) {
    && !s.up
    && forall c | c in s.disk :: c.info == Info(0, 0, 0)
  }

  ghost predicate Inv(s: State) {
    Intact(s.disk) && (s.up ==> s.ram.Valid() && Recovered(s.disk))
  }

  /** The collision this step could meet: a write or a repair that replaces area 0. */
  ghost predicate CleanStep(s: State, e: Event) {
    match e
    case Write(buf, _) => CollisionFree(s.disk[0], buf)
    case Reboot(_) => ValidFlag(s.disk) == 2 ==> CollisionFree(s.disk[0], s.disk[1].area)
  }

  /** An image held in one atomic cell: a write replaces it, an interrupted one may. */
  ghost predicate AtomicStep(v: Image, e: Event, v': Image) {
    match e
    case Write(buf, n) => if n >= 2 * COPY_WRITES then v' == buf else v' in {v, buf}
    case Reboot(_) => v' == v
  }

  lemma BootStep(d: Disk, n: nat)
    requires Intact(d)
    ensures Intact(Boot(d, n).0)
    ensures n >= COPY_WRITES ==> Recovered(Boot(d, n).0)
    ensures (ValidFlag(d) == 2 ==> CollisionFree(d[0], d[1].area)) ==> View(Boot(d, n).0) == View(d)
  {
    if n >= COPY_WRITES {
      BootServesView(d, n);
    } else {
      RecoveryKeepsGoodCopy(d, n);
      if ValidFlag(d) == 2 && CollisionFree(d[0], d[1].area) {
        assert !Collision(d[0], d[1].area, Min(n, AREA_BLOCKS));
      }
    }
  }

  lemma StepInv(s: State, e: Event)
    requires Inv(s) && Enabled(s, e)
    ensures Inv(Next(s, e))
    ensures CleanStep(s, e) ==> AtomicStep(View(s.disk), e, View(Next(s, e).disk))
    ensures Next(s, e).up ==> Next(s, e).disk[0].area == View(Next(s, e).disk)
  {
    match e
    case Write(buf, n) =>
      WriteView(s.disk, s.ram, buf, n);
      if CollisionFree(s.disk[0], buf) {
        CrashAtomicity(s.disk, s.ram, buf);
      }
    case Reboot(n) =>
      BootStep(s.disk, n);
  }

  lemma {:induction false} RunInv(states: seq<State>, events: seq<Event>, i: nat)
    requires IsRun(states, events) && Blank(states[0]) && i < |states|
    ensures Inv(states[i])
  {
    if i == 0 {
    } else {
      RunInv(states, events, i - 1);
      StepInv(states[i - 1], events[i - 1]);
    }
  }

  /**
   Over every run from a blank disk, any interruptions included, the key area
   behaves as one atomic image as long as no step meets a collision; and
   whenever the driver is up, `emmc_key_read` returns exactly that image.
   */
  lemma RunsAreAtomic(states: seq<State>, events: seq<Event>)
    requires IsRun(states, events) && Blank(states[0])
    ensures forall i | 0 <= i < |events| && CleanStep(states[i], events[i]) ::
              AtomicStep(View(states[i].disk), events[i], View(states[i + 1].disk))
    ensures forall i | 0 <= i < |states| && states[i].up :: states[i].disk[0].area == View(states[i].disk)
  {
    forall i | 0 <= i < |events| && CleanStep(states[i], events[i])
      ensures AtomicStep(View(states[i].disk), events[i], View(states[i + 1].disk))
    {
      RunInv(states, events, i);
      StepInv(states[i], events[i]);
    }
    forall i | 0 <= i < |states| && states[i].up
      ensures states[i].disk[0].area == View(states[i].disk)
    {
      if i > 0 {
        RunInv(states, events, i - 1);
        StepInv(states[i - 1], events[i - 1]);
      }
    }
  }

  // -------------------------------------------------------------------------
  // Stamps

  /** No stamp has reached the half of the range where the wrapped comparison turns round. */
  predicate StampsInRange(s: State) {
    && s.disk[0].info.stamp < 0x8000_0000 && s.disk[1].info.stamp < 0x8000_0000
    && (s.up ==> s.ram.stamp + 1 < 0x8000_0000)
  }

  /** Copy 1 is not older than copy 0, and the next stamp to be written is not older than copy 0. */
  ghost predicate StampInv(s: State) {
    && s.disk[0].info.stamp <= s.disk[1].info.stamp
    && (s.up ==> s.ram.Valid() && s.disk[0].info.stamp <= s.ram.stamp + 1)
  }

  lemma StampStep(s: State, e: Event)
    requires StampInv(s) && StampsInRange(s) && Enabled(s, e)
    ensures StampInv(Next(s, e))
  {
  }

  lemma {:induction false} StampRun(states: seq<State>, events: seq<Event>, i: nat)
    requires IsRun(states, events) && Blank(states[0]) && i < |states| && forall s | s in states :: StampsInRange(s)
    ensures StampInv(states[i])
  {
    if i == 0 {
    } else {
      StampRun(states, events, i - 1);
      StampStep(states[i - 1], events[i - 1]);
    }
  }

  /**
   Over every run from a blank disk whose stamps stay below 2^31, however
   long, copy 1's stamp is never behind copy 0's, so a boot never takes the
   branch of `update_old_key` that would rewrite copy 1.
   */
  lemma StampOrder(states: seq<State>, events: seq<Event>)
    requires IsRun(states, events) && Blank(states[0]) && forall s | s in states :: StampsInRange(s)
    ensures forall s | s in states ::
              && s.disk[0].info.stamp <= s.disk[1].info.stamp
              && !StampAfter(s.disk[0].info.stamp, s.disk[1].info.stamp)
  {
    forall s | s in states
      ensures s.disk[0].info.stamp <= s.disk[1].info.stamp
      ensures !StampAfter(s.disk[0].info.stamp, s.disk[1].info.stamp)
    {
      var i :| 0 <= i < |states| && states[i] == s;
      StampRun(states, events, i);
    }
  }
}
