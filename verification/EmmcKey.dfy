/**
 The two-copy key area of the eMMC reserve partition. Each copy is an area of
 256 KiB and an info record in a block of its own; areas and info blocks reach
 the card one 512-byte block at a time, in order, so an interruption leaves a
 prefix of the block writes of the operation on the card.
 */
module EmmcKey {
  import opened Bytes

  const AREA_SIZE: nat := 0x4_0000
  const BLOCK_SIZE: nat := 0x200
  const CHUNK_BLOCKS: nat := 0x100       // blocks in one transfer
  const AREA_BLOCKS: nat := 0x200
  const COPY_WRITES: nat := 0x201        // the area's blocks, then the info block

  type Image = s: seq<byte> | |s| == AREA_SIZE witness seq(AREA_SIZE, _ => 0)

  datatype Info = Info(checksum: nat, stamp: u32, magic: u32)

  datatype Copy = Copy(area: Image, info: Info)

  type Disk = d: seq<Copy> | |d| == 2
    witness [Copy(seq(AREA_SIZE, _ => 0), Info(0, 0, 0)), Copy(seq(AREA_SIZE, _ => 0), Info(0, 0, 0))]

  /** `key_infos` and the card's `key_stamp`: what a reboot loses. */
  datatype Ram = Ram(infos: seq<Info>, stamp: u32) {
    predicate Valid() { |infos| == 2 }
  }

  /** Sum of the first `n` 32-bit words. */
  function WordSum(s: seq<byte>, n: nat): (sum: nat)
    requires 4 * n <= |s|
    ensures sum <= n * 0xFFFF_FFFF
  {
    if n == 0 then 0 else WordSum(s, n - 1) + U32At(s, 4 * (n - 1))
  }

  /** `_calc_key_checksum` over a whole area. */
  function Checksum(a: Image): (sum: nat) {
    WordSum(a, |a| / 4)
  }

  /** What `update_key_info` asks of a copy before it counts. */
  predicate ValidCopy(c: Copy) {
    Checksum(c.area) == c.info.checksum && c.info.magic != 0
  }

  /** The area after the first `k` blocks of `buf` have replaced its own. */
  function Torn(a: Image, buf: Image, k: nat): (t: Image)
    requires k <= AREA_BLOCKS
  {
    buf[..BLOCK_SIZE * k] + a[BLOCK_SIZE * k..]
  }

  lemma TornNone(a: Image, buf: Image)
    ensures Torn(a, buf, 0) == a
  {
  }

  lemma TornSame(a: Image, k: nat)
    requires k <= AREA_BLOCKS
    ensures Torn(a, a, k) == a
  {
  }

  /** Writing `m` more blocks behind the first `k`. */
  lemma TornExtends(a: Image, buf: Image, k: nat, src: seq<byte>, m: nat)
    requires k + m <= AREA_BLOCKS && BLOCK_SIZE * m <= |src|
    requires BLOCK_SIZE * k + |src| <= AREA_SIZE && src == buf[BLOCK_SIZE * k..BLOCK_SIZE * k + |src|]
    ensures var t := Torn(a, buf, k);
            t[..BLOCK_SIZE * k] + src[..BLOCK_SIZE * m] + t[BLOCK_SIZE * k + BLOCK_SIZE * m..] == Torn(a, buf, k + m)
  {
  }

  /** Copying bytes `k..k + m` of `a` behind the `k` already copied. */
  lemma OverlayExtends(a: seq<byte>, dst: seq<byte>, k: nat, m: nat)
    requires k + m <= |a| && k + m <= |dst|
    ensures var b := a[..k] + dst[k..];
            b[..k] + a[k..k + m] + b[k + m..] == a[..k + m] + dst[k + m..]
  {
  }

  /** `stamp_after(a, b)`: 32-bit signed distance, with wrap-around. */
  predicate StampAfter(a: u32, b: u32) {
    ToS32(b - a) < 0
  }

  function Min(a: nat, b: nat): (m: nat) {
    if a < b then a else b
  }

  /** `emmc_write_one_key` when the first `n` of its block writes land. */
  function WriteOne(d: Disk, ram: Ram, buf: Image, flag: nat, n: nat): (r: Disk)
    requires ram.Valid() && 1 <= flag <= 2
  {
    var c := d[flag % 2];
    d[flag % 2 := Copy(Torn(c.area, buf, Min(n, AREA_BLOCKS)),
                       if n < COPY_WRITES then c.info else ram.infos[flag - 1])]
  }

  /** `emmc_key_write` of `length` bytes of `buf` when `n` block writes land. */
  function KeyWrite(d: Disk, ram: Ram, buf: Image, length: nat, n: nat): (r: (Disk, Ram))
    requires ram.Valid() && length <= AREA_SIZE
    ensures r.1.Valid()
  {
    var info := Info(WordSum(buf, length / 4), ToU32(ram.stamp + 1), 9);
    var ram1 := ram.(infos := ram.infos[0 := info]);
    var d1 := WriteOne(d, ram1, buf, 1, n);
    if n < COPY_WRITES then (d1, ram1) else
    var ram2 := ram1.(infos := ram1.infos[1 := info]);
    (WriteOne(d1, ram2, buf, 2, n - COPY_WRITES), ram2)
  }

  function ValidFlag(d: Disk): (flag: nat) {
    (if ValidCopy(d[1]) then 2 else 0) + (if ValidCopy(d[0]) then 1 else 0)
  }

  /** What `update_key_info` leaves in memory. */
  function LoadInfos(d: Disk): (ram: Ram)
    ensures ram.Valid()
  {
    Ram([d[0].info, d[1].info],
        if d[0].info.stamp > d[1].info.stamp then d[0].info.stamp else d[1].info.stamp)
  }

  /** `update_old_key`, entered with both copies valid and area 0 in the buffer. */
  function UpdateOld(d: Disk, ram: Ram, n: nat): (r: (Disk, Ram))
    requires ram.Valid()
    ensures r.1.Valid()
  {
    var newer1 := StampAfter(ram.infos[1].stamp, ram.infos[0].stamp);
    if !newer1 && !StampAfter(ram.infos[0].stamp, ram.infos[1].stamp) then (d, ram) else
    var infos := if newer1 then ram.infos[1 := ram.infos[0]] else ram.infos[0 := ram.infos[1]];
    var ram1 := ram.(infos := infos);
    (WriteOne(d, ram1, d[0].area, if newer1 then 2 else 1, n),
     if n < COPY_WRITES then ram1 else ram1.(stamp := infos[0].stamp))
  }

  /** `_key_init` when `n` block writes land. */
  function Boot(d: Disk, n: nat): (r: (Disk, Ram))
    ensures r.1.Valid()
  {
    var ram := LoadInfos(d);
    match ValidFlag(d)
    case 0 => (d, ram)
    case 1 => (WriteOne(d, ram, d[0].area, 1, n), ram)
    case 2 => (WriteOne(d, ram, d[1].area, 2, n), ram)
    case _ => UpdateOld(d, ram, n)
  }

  /** The block writes a boot issues when all of them land: one copy's worth, or none. */
  function BootWrites(d: Disk): (n: nat) {
    var newer1 := StampAfter(d[1].info.stamp, d[0].info.stamp);
    match ValidFlag(d)
    case 0 => 0
    case 1 | 2 => COPY_WRITES
    case _ => if newer1 || StampAfter(d[0].info.stamp, d[1].info.stamp) then COPY_WRITES else 0
  }

  /** The image a completed boot serves: area 0 unless copy 1 is the only valid one. */
  function View(d: Disk): (v: Image) {
    if ValidFlag(d) == 2 then d[1].area else d[0].area
  }

  // -------------------------------------------------------------------------
  // The code, step by step

  /** The card and the driver's globals. `budget` block writes still succeed. */
  class Card {
    var disk: Disk
    var infos: seq<Info>
    var stamp: u32
    var budget: nat

    ghost predicate Valid()
      reads this
    {
      |infos| == 2
    }

    ghost function Memory(): (ram: Ram)
      reads this
    {
      Ram(infos, stamp)
    }

    constructor (d: Disk, n: nat)
      ensures Valid() && disk == d && budget == n
      ensures infos == [Info(0, 0, 0), Info(0, 0, 0)]
    {
      disk, infos, stamp, budget := d, [Info(0, 0, 0), Info(0, 0, 0)], 0, n;
    }

    /** `mmc_write_internal` of `CHUNK_BLOCKS` blocks into one area. */
    method WriteChunk(copy: nat, first: nat, src: seq<byte>) returns (ok: bool)
      requires copy < 2 && first + CHUNK_BLOCKS <= AREA_BLOCKS && |src| == BLOCK_SIZE * CHUNK_BLOCKS
      modifies this`disk, this`budget
      ensures ok <==> old(budget) >= CHUNK_BLOCKS
      ensures budget == old(budget) - Min(old(budget), CHUNK_BLOCKS)
      ensures var a, m := old(disk)[copy].area, BLOCK_SIZE * Min(old(budget), CHUNK_BLOCKS);
              disk == old(disk)[copy := old(disk)[copy].(area :=
                a[..BLOCK_SIZE * first] + src[..m] + a[BLOCK_SIZE * first + m..])]
    {
      var done := Min(budget, CHUNK_BLOCKS);
      var a, m := disk[copy].area, BLOCK_SIZE * done;
      disk := disk[copy := disk[copy].(area := a[..BLOCK_SIZE * first] + src[..m] + a[BLOCK_SIZE * first + m..])];
      budget := budget - done;
      ok := done == CHUNK_BLOCKS;
    }

    /** `mmc_write_internal` of the one block that holds an info record. */
    method WriteInfo(copy: nat, info: Info) returns (ok: bool)
      requires copy < 2
      modifies this`disk, this`budget
      ensures ok <==> old(budget) >= 1
      ensures budget == old(budget) - Min(old(budget), 1)
      ensures disk == if ok then old(disk)[copy := old(disk)[copy].(info := info)] else old(disk)
    {
      ok := budget >= 1;
      if ok {
        disk := disk[copy := disk[copy].(info := info)];
        budget := budget - 1;
      }
    }

    method WriteOneKey(buffer: Image, flag: nat) returns (ok: bool)
      requires Valid() && 1 <= flag <= 2
      modifies this`disk, this`budget
      ensures Valid()
      ensures ok <==> old(budget) >= COPY_WRITES
      ensures budget == old(budget) - Min(old(budget), COPY_WRITES)
      ensures disk == WriteOne(old(disk), Memory(), buffer, flag, old(budget))
    {
      hide Torn;
      var copy := flag % 2;
      var info := infos[flag - 1];
      var blk, cnt := 0, AREA_SIZE / BLOCK_SIZE;
      var src := buffer[..BLOCK_SIZE * CHUNK_BLOCKS];
      ghost var was := disk[copy];
      TornNone(was.area, buffer);
      assert disk == disk[copy := was];
      while true
        invariant (blk, cnt) in {(0, 0x200), (0x100, 0x100)}
        invariant src == buffer[BLOCK_SIZE * blk..BLOCK_SIZE * (blk + CHUNK_BLOCKS)]
        invariant old(budget) >= blk && budget == old(budget) - blk
        invariant disk == old(disk)[copy := Copy(Torn(was.area, buffer, blk), was.info)]
        decreases cnt
      {
        TornExtends(was.area, buffer, blk, src, Min(budget, CHUNK_BLOCKS));
        ok := WriteChunk(copy, blk, src);
        assert disk[copy].area == Torn(was.area, buffer, Min(old(budget), blk + CHUNK_BLOCKS));
        if !ok { return; }
        blk, cnt := blk + CHUNK_BLOCKS, cnt - CHUNK_BLOCKS;
        if cnt == 0 { break; }
        src := buffer[BLOCK_SIZE * CHUNK_BLOCKS..];
      }
      ok := WriteInfo(copy, info);
    }

    /** `_calc_key_checksum`, in 64-bit arithmetic. */
    static method CalcChecksum(addr: seq<byte>, size: nat) returns (checksum: nat)
      requires size <= |addr| && size <= AREA_SIZE
      ensures checksum == WordSum(addr, size / 4)
    {
      var i, words := 0, size / 4;
      checksum := 0;
      while i < words
        invariant 0 <= i <= words
        invariant checksum == WordSum(addr, i)
      {
        checksum := (checksum + U32At(addr, 4 * i)) % 0x1_0000_0000_0000_0000;
        i := i + 1;
      }
    }

    method Write(buffer: Image, length: nat) returns (ok: bool)
      requires Valid() && length <= AREA_SIZE
      modifies this
      ensures Valid()
      ensures ok <==> old(budget) >= 2 * COPY_WRITES
      ensures (disk, Memory()) == KeyWrite(old(disk), old(Memory()), buffer, length, old(budget))
    {
      var cpy := 1;
      ghost var info := Info(WordSum(buffer, length / 4), ToU32(stamp + 1), 9);
      while true
        invariant 1 <= cpy <= 2 && |infos| == 2 && stamp == old(stamp)
        invariant cpy == 1 ==> disk == old(disk) && infos == old(infos) && budget == old(budget)
        invariant cpy == 2 ==> old(budget) >= COPY_WRITES && budget == old(budget) - COPY_WRITES
                               && infos == old(infos)[0 := info]
                               && disk == WriteOne(old(disk), Memory(), buffer, 1, COPY_WRITES)
        decreases 2 - cpy
      {
        var checksum := CalcChecksum(buffer, length);
        infos := infos[cpy - 1 := Info(checksum, ToU32(stamp + 1), 9)];
        ok := WriteOneKey(buffer, cpy);
        if !ok { return; }
        cpy := cpy + 1;
        if cpy >= 3 { break; }
      }
    }

    /** `update_key_info`; `addr` is what its buffer holds at the end. */
    method UpdateKeyInfo() returns (flag: nat, addr: Image)
      requires Valid()
      modifies this`infos, this`stamp
      ensures Valid()
      ensures flag == ValidFlag(disk) && addr == disk[0].area && Memory() == LoadInfos(disk)
    {
      flag, addr := 0, disk[1].area;
      var cpy := 1;
      while cpy >= 0
        invariant -1 <= cpy <= 1 && |infos| == 2
        invariant flag == (if cpy < 1 && ValidCopy(disk[1]) then 2 else 0)
                          + (if cpy < 0 && ValidCopy(disk[0]) then 1 else 0)
        invariant cpy < 1 ==> infos[1] == disk[1].info
        invariant cpy < 0 ==> infos[0] == disk[0].info && addr == disk[0].area
      {
        addr := disk[cpy].area;
        infos := infos[cpy := disk[cpy].info];
        var checksum := CalcChecksum(addr, AREA_SIZE);
        if checksum == infos[cpy].checksum && infos[cpy].magic != 0 {
          flag := flag + cpy + 1;
        }
        cpy := cpy - 1;
      }
      stamp := if infos[0].stamp > infos[1].stamp then infos[0].stamp else infos[1].stamp;
    }

    method Init()
      requires Valid()
      modifies this
      ensures Valid()
      ensures (disk, Memory()) == Boot(old(disk), old(budget))
      ensures budget == old(budget) - Min(old(budget), BootWrites(old(disk)))
      ensures ValidCopy(old(disk)[0]) || !ValidCopy(old(disk)[1]) ==> disk[0] == old(disk)[0]
      ensures ValidCopy(old(disk)[0]) == ValidCopy(old(disk)[1])
              && (ValidCopy(old(disk)[0]) ==> StampAfter(old(disk)[1].info.stamp, old(disk)[0].info.stamp)
                                              || !StampAfter(old(disk)[0].info.stamp, old(disk)[1].info.stamp))
              ==> disk == old(disk)
      ensures ValidCopy(old(disk)[1]) && !ValidCopy(old(disk)[0]) ==> disk[1] == old(disk)[1]
    {
      hide ValidCopy, Torn;
      TornSame(disk[0].area, Min(budget, AREA_BLOCKS));
      TornSame(disk[1].area, Min(budget, AREA_BLOCKS));
      var flag, key := UpdateKeyInfo();
      if flag == 1 || flag == 2 {
        key := disk[flag - 1].area;
        var _ := WriteOneKey(key, flag);
      } else if flag == 3 {
        UpdateOldKey(key);
      }
    }

    method UpdateOldKey(addr: Image)
      requires Valid() && addr == disk[0].area
      modifies this
      ensures Valid()
      ensures (disk, Memory()) == UpdateOld(old(disk), old(Memory()), old(budget))
      ensures budget == old(budget) - (if StampAfter(old(infos)[1].stamp, old(infos)[0].stamp)
                                          || StampAfter(old(infos)[0].stamp, old(infos)[1].stamp)
                                       then Min(old(budget), COPY_WRITES) else 0)
      ensures old(infos)[0] == old(disk)[0].info ==> disk[0] == old(disk)[0]
      ensures old(infos)[0] == old(disk)[0].info
              && (StampAfter(old(infos)[1].stamp, old(infos)[0].stamp)
                  || !StampAfter(old(infos)[0].stamp, old(infos)[1].stamp))
              ==> disk == old(disk)
    {
      hide ValidCopy, Torn;
      TornSame(disk[0].area, Min(budget, AREA_BLOCKS));
      var flag;
      if StampAfter(infos[1].stamp, infos[0].stamp) {
        infos := infos[1 := infos[0]];
        flag := 2;
      } else if StampAfter(infos[0].stamp, infos[1].stamp) {
        infos := infos[0 := infos[1]];
        flag := 1;
      } else {
        return;
      }
      var ok := WriteOneKey(addr, flag);
      if ok {
        stamp := infos[0].stamp;
      }
    }

    /** `emmc_key_read` into `dst`: whole blocks, always from area 0. */
    method Read(dst: seq<byte>) returns (buffer: seq<byte>)
      requires |dst| <= AREA_SIZE
      ensures var m := |dst| / BLOCK_SIZE * BLOCK_SIZE;
              buffer == disk[0].area[..m] + dst[m..]
    {
      var blk, cnt := 0, |dst| / BLOCK_SIZE;
      var at := 0;
      buffer := dst;
      while true
        invariant (blk, at) in {(0, 0), (CHUNK_BLOCKS, BLOCK_SIZE * CHUNK_BLOCKS)}
        invariant blk + cnt == |dst| / BLOCK_SIZE && 0 <= cnt
        invariant buffer == disk[0].area[..at] + dst[at..]
        decreases cnt
      {
        var part := BLOCK_SIZE * Min(CHUNK_BLOCKS, cnt);
        OverlayExtends(disk[0].area, dst, at, part);
        buffer := buffer[..at] + disk[0].area[BLOCK_SIZE * blk..BLOCK_SIZE * blk + part] + buffer[at + part..];
        blk, cnt := blk + CHUNK_BLOCKS, cnt - CHUNK_BLOCKS;
        if cnt <= 0 { break; }
        at := BLOCK_SIZE * CHUNK_BLOCKS;
      }
    }
  }
}
