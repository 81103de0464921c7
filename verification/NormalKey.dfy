/**
 The normal-key store: a list of named objects in memory and the hashed block
 it is saved to. The hash (SHA-256) is a parameter `h`.
 */
module NormalKey {
  import opened Bytes
  import opened Tlv

  type Hasher = seq<byte> -> Digest

  const RAW_SIZE: nat := 512
  const HEAD_SIZE: nat := 512
  const HEADERS: nat := 1024
  const MAX_BLOCK: nat := 0x7FFF_FFFF

  const MARK: seq<byte> := [0x41, 0x4D, 0x4C, 0x4E, 0x4F, 0x52, 0x4D, 0x41, 0x4C]   // AMLNORMAL

  const ERR_HEADER: u32 := 0x1
  const ERR_KEYRDFAIL: u32 := 0x4
  const ERR_KEYCHKFAIL: u32 := 0x8
  const ERR_ENCHDFAIL: u32 := 0x10
  const ERR_DATASZ: u32 := 0x20

  const ERRORS: set<u32> := {0x1, 0x2, 0x4, 0x8, 0x10, 0x20}

  const TYPE_GENERIC: u32 := 0xA000_00BF

  /** `struct storage_block_raw_head`, whose mark, version and encryption type never vary. */
  datatype RawHead = RawHead(keycnt: u32, initcnt: u32, wrtcnt: u32, errcnt: u32, flags: u32,
                             headhash: Digest, hash: Digest)

  function FreshRaw(): (r: RawHead) {
    RawHead(0, 0, 0, 0, 0, Zeros(32), Zeros(32))
  }

  /** The part of the raw head that `headhash` covers. */
  function HeadBytes(r: RawHead): (s: seq<byte>)
    ensures |s| == 44
  {
    MARK + Zeros(7) + LE32(0) + LE32(0)
    + (LE32(r.keycnt) + (LE32(r.initcnt) + (LE32(r.wrtcnt) + (LE32(r.errcnt) + LE32(r.flags)))))
  }

  function RawBytes(r: RawHead): (s: seq<byte>)
    ensures |s| == 108
  {
    HeadBytes(r) + (r.headhash + r.hash)
  }

  /** `flags & bit`, for a power of two. */
  predicate HasFlag(flags: nat, bit: nat) {
    if bit <= 1 then flags % 2 == 1 else HasFlag(flags / 2, bit / 2)
  }

  /** `flags |= bit` */
  function SetFlag(flags: u32, bit: u32): (r: u32) {
    if HasFlag(flags, bit) then flags else ToU32(flags + bit)
  }

  // -------------------------------------------------------------------------
  // Reading a block

  /** The hash of an object's data stays inside its allocation. */
  predicate Hashable(o: Object) {
    o.datasize == 0 || (o.data.Some? && o.datasize <= |o.data.value|)
  }

  function DataOf(o: Object): (s: seq<byte>)
    requires Hashable(o)
  {
    if o.datasize == 0 then [] else o.data.value[..o.datasize]
  }

  datatype KeysRead = KeysRead(keys: seq<Object>, flags: u32) | KeysOverrun

  /** `Tlv_ReadObject` on what is left of the data `m` at `idx`. */
  function ObjectAt(m: seq<byte>, blocksize: u32, idx: nat): (r: Parse<Object>)
    requires idx <= blocksize
    ensures r.Ok? ==> 8 <= r.used && idx + r.used <= blocksize
  {
    if idx > |m| then Overrun else ReadObject(m[idx..], ToS32(blocksize - idx))
  }

  /** The object loop of `normalkey_readfromblock` over the data `m`. */
  function LoadKeys(h: Hasher, m: seq<byte>, blocksize: u32, idx: nat, keys: seq<Object>, flags: u32): (r: KeysRead)
    requires idx <= blocksize
    decreases blocksize - idx
  {
    if idx >= blocksize then KeysRead(keys, flags)
    else
      match ObjectAt(m, blocksize, idx)
      case Rejected => KeysRead(keys, SetFlag(flags, ERR_KEYRDFAIL))
      case Overrun => KeysOverrun
      case Ok(o, used) =>
        if !Hashable(o) then KeysOverrun
        else if h(DataOf(o)) != o.hash then LoadKeys(h, m, blocksize, idx + used, keys, SetFlag(flags, ERR_KEYCHKFAIL))
        else LoadKeys(h, m, blocksize, idx + used, [o] + keys, flags)
  }

  /** What `normalkey_readfromblock` leaves; `Undefined` when it would leave the block. */
  datatype Loaded = Loaded(keys: seq<Object>, raw: RawHead, enc: EncHead) | Undefined

  function ReadRaw(h: Hasher, block: seq<byte>): (r: RawHead)
    requires |block| > HEADERS
  {
    var headhash := h(block[..44]);
    var r := if headhash != block[44..76] then FreshRaw().(flags := ERR_HEADER)
             else RawHead(U32At(block, 24), U32At(block, 28), U32At(block, 32), U32At(block, 36), U32At(block, 40),
                          Zeros(32), Zeros(32));
    r.(headhash := headhash, initcnt := ToU32(r.initcnt + 1), hash := h(block[RAW_SIZE..]))
  }

  function ReadBlock(h: Hasher, block: seq<byte>, was: EncHead): (r: Loaded)
    requires HEADERS < |block| <= MAX_BLOCK
  {
    var enc := was.(flashsize := |block|);
    if block[..10] != MARK + [0] then Loaded([], FreshRaw(), enc) else
    var raw := ReadRaw(h, block);
    if raw.hash != block[76..108] then Loaded([], raw.(errcnt := ToU32(raw.errcnt + 1)), enc) else
    match ReadHead(block[RAW_SIZE..], HEAD_SIZE, enc)
    case HeadRejected(head) => Loaded([], raw.(flags := SetFlag(raw.flags, ERR_ENCHDFAIL)), head)
    case HeadOverrun => Undefined
    case HeadOk(head, _) =>
      if |block| < ToU32(head.blocksize + HEADERS) then Loaded([], raw.(flags := SetFlag(raw.flags, ERR_DATASZ)), head)
      else
        match LoadKeys(h, block[HEADERS..], head.blocksize, 0, [], raw.flags)
        case KeysOverrun => Undefined
        case KeysRead(keys, flags) => Loaded(keys, raw.(flags := flags), head)
  }

  // -------------------------------------------------------------------------
  // What a load accepts, whatever the block holds

  ghost predicate Power(p: nat) {
    p == 1 || (p > 1 && p % 2 == 0 && Power(p / 2))
  }

  lemma {:induction false} AddedBit(f: nat, p: nat, q: nat, c: nat)
    requires Power(p) && Power(q) && !HasFlag(f, p)
    ensures HasFlag(f + p, q) <==> q == p || HasFlag(f, q)
    ensures f < c * p * 2 ==> f + p < c * p * 2
  {
    if p == 1 {
    } else {
      assert (f + p) / 2 == f / 2 + p / 2;
      assert c * p == c * (p / 2) * 2;
      AddedBit(f / 2, p / 2, if q == 1 then 1 else q / 2, c);
    }
  }

  /** Setting a flag sets that one and no other. */
  lemma SetFlagIs(flags: u32, bit: u32, other: u32)
    requires bit in ERRORS && other in ERRORS
    ensures HasFlag(SetFlag(flags, bit), other) <==> other == bit || HasFlag(flags, other)
  {
    hide HasFlag;
    assert Power(0x1) && Power(0x2) && Power(0x4);
    assert Power(0x8) && Power(0x10) && Power(0x20);
    if !HasFlag(flags, bit) {
      AddedBit(flags, bit, other, 0x8000_0000 / bit);
    }
  }

  /** Where the loop over the objects stops: at the size in the head, at a record it cannot read, or outside. */
  datatype Stop = AtEnd | Unreadable | Outside

  /** The objects in the data from `idx` on, up to the first that cannot be read. */
  datatype Walk = Walk(objects: seq<Object>, stop: Stop)

  function ObjectsFrom(m: seq<byte>, blocksize: u32, idx: nat): (w: Walk)
    requires idx <= blocksize
    decreases blocksize - idx
  {
    if idx >= blocksize then Walk([], AtEnd)
    else
      match ObjectAt(m, blocksize, idx)
      case Rejected => Walk([], Unreadable)
      case Overrun => Walk([], Outside)
      case Ok(o, used) =>
        if !Hashable(o) then Walk([], Outside)
        else
          var rest := ObjectsFrom(m, blocksize, idx + used);
          Walk([o] + rest.objects, rest.stop)
  }

  /** The object carries the hash of its data. */
  predicate Genuine(h: Hasher, o: Object) {
    Hashable(o) && o.hash == h(DataOf(o))
  }

  /** The genuine ones among `objects`, last first. */
  function GenuineLast(h: Hasher, objects: seq<Object>): (r: seq<Object>) {
    if objects == [] then []
    else GenuineLast(h, objects[1..]) + (if Genuine(h, objects[0]) then [objects[0]] else [])
  }

  /** Some object does not carry the hash of its data. */
  predicate Forged(h: Hasher, objects: seq<Object>) {
    objects != [] && (!Genuine(h, objects[0]) || Forged(h, objects[1..]))
  }

  /** Both in plain words. */
  lemma {:induction false} GenuineLastIs(h: Hasher, objects: seq<Object>)
    ensures forall o :: o in GenuineLast(h, objects) <==> o in objects && Genuine(h, o)
    ensures Forged(h, objects) <==> exists o | o in objects :: !Genuine(h, o)
  {
    hide Genuine;
    if objects == [] {
    } else {
      GenuineLastIs(h, objects[1..]);
    }
  }

  /** The flags after a walk: one raised by a forged object among those met, one by a record that cannot be read. */
  function Complained(h: Hasher, w: Walk, flags: u32): (r: u32) {
    var r := if Forged(h, w.objects) then SetFlag(flags, 0x8) else flags;
    if w.stop == Unreadable then SetFlag(r, 0x4) else r
  }

  lemma CheckFailTwice(flags: u32)
    ensures SetFlag(SetFlag(flags, 0x8), 0x8) == SetFlag(flags, 0x8)
  {
    SetFlagIs(flags, 0x8, 0x8);
  }

  /**
   For every content of the data: the object loop keeps exactly the objects that
   carry the hash of their data, each put in front of those before it, and passes
   over the others. The check flag is raised exactly by a forged object, the read
   flag exactly by an unreadable record; no other flag changes.
   */
  lemma {:induction false} LoadKeysIs(h: Hasher, m: seq<byte>, blocksize: u32, idx: nat,
                                      keys: seq<Object>, flags: u32)
    requires idx <= blocksize
    ensures var w, r := ObjectsFrom(m, blocksize, idx), LoadKeys(h, m, blocksize, idx, keys, flags);
            if w.stop == Outside then r == KeysOverrun
            else r == KeysRead(GenuineLast(h, w.objects) + keys, Complained(h, w, flags))
    decreases blocksize - idx
  {
    hide ObjectAt, Hashable, DataOf, SetFlag;
    if idx >= blocksize {
    } else {
      var w, p := ObjectsFrom(m, blocksize, idx), ObjectAt(m, blocksize, idx);
      if p.Ok? && Hashable(p.value) {
        var o, rest := p.value, ObjectsFrom(m, blocksize, idx + p.used);
        assert w.objects[1..] == rest.objects;
        if Genuine(h, o) {
          LoadKeysIs(h, m, blocksize, idx + p.used, [o] + keys, flags);
          assert GenuineLast(h, rest.objects) + ([o] + keys) == GenuineLast(h, w.objects) + keys;
        } else {
          LoadKeysIs(h, m, blocksize, idx + p.used, keys, SetFlag(flags, 0x8));
          CheckFailTwice(flags);
        }
      }
    }
  }

  /** What the head hash leaves of the stored counts: they are taken over, or all start again with an error. */
  lemma ReadRawIs(h: Hasher, block: seq<byte>)
    requires |block| > HEADERS
    ensures var r := ReadRaw(h, block);
            && r.headhash == h(block[..44]) && r.hash == h(block[512..])
            && if h(block[..44]) == block[44..76]
               then && r.keycnt == U32At(block, 24) && r.wrtcnt == U32At(block, 32)
                    && r.errcnt == U32At(block, 36) && r.flags == U32At(block, 40)
                    && r.initcnt == ToU32(U32At(block, 28) + 1)
               else r.keycnt == r.wrtcnt == r.errcnt == 0 && r.initcnt == 1 && r.flags == 1
  {
  }

  /**
   For every content of a block: without the mark nothing is taken over; with the
   mark and another hash than the data's no key is loaded and the error count is
   one more; what is loaded otherwise carries the hash of its data, every one of it.
   */
  lemma ReadBlockIs(h: Hasher, block: seq<byte>, was: EncHead)
    requires HEADERS < |block| <= MAX_BLOCK
    ensures var l, raw := ReadBlock(h, block, was), ReadRaw(h, block);
            if block[..10] != [0x41, 0x4D, 0x4C, 0x4E, 0x4F, 0x52, 0x4D, 0x41, 0x4C, 0]
            then l == Loaded([], FreshRaw(), EncHead(was.blocksize, |block|))
            else if h(block[512..]) != block[76..108]
            then l == Loaded([], raw.(errcnt := ToU32(raw.errcnt + 1)), EncHead(was.blocksize, |block|))
            else l.Loaded? ==> l.raw == raw.(flags := l.raw.flags) && forall o | o in l.keys :: Genuine(h, o)
  {
    hide Tlv.ReadHead, LoadKeys, ReadRaw, Genuine, GenuineLast, ObjectsFrom, SetFlag, HasFlag, ToU32, Complained;
    ReadRawIs(h, block);
    assert MARK + [0] == [0x41, 0x4D, 0x4C, 0x4E, 0x4F, 0x52, 0x4D, 0x41, 0x4C, 0];
    var head := ReadHead(block[512..], 512, was.(flashsize := |block|));
    if head.HeadOk? {
      LoadKeysIs(h, block[1024..], head.head.blocksize, 0, [], ReadRaw(h, block).flags);
      GenuineLastIs(h, ObjectsFrom(block[1024..], head.head.blocksize, 0).objects);
    }
  }

  /** A block with mark and data hash right: which of its head and objects are loaded, and which flags say why not. */
  lemma ReadBlockTakes(h: Hasher, block: seq<byte>, was: EncHead)
    requires HEADERS < |block| <= MAX_BLOCK
    requires block[..10] == MARK + [0] && h(block[RAW_SIZE..]) == block[76..108]
    ensures var l, flags := ReadBlock(h, block, was), ReadRaw(h, block).flags;
            match ReadHead(block[512..], 512, EncHead(was.blocksize, |block|))
            case HeadOverrun => l == Undefined
            case HeadRejected(head) =>
              && l.Loaded? && l.keys == [] && l.enc == head
              && l.raw.flags == SetFlag(flags, 0x10)
            case HeadOk(head, _) =>
              if |block| < ToU32(head.blocksize + 1024)
              then && l.Loaded? && l.keys == [] && l.enc == head
                   && l.raw.flags == SetFlag(flags, 0x20)
              else
                var w := ObjectsFrom(block[1024..], head.blocksize, 0);
                if w.stop == Outside then l == Undefined
                else
                  && l.Loaded? && l.keys == GenuineLast(h, w.objects) && l.enc == head
                  && l.raw.flags == Complained(h, w, flags)
  {
    hide Tlv.ReadHead, LoadKeys, ReadRaw, Genuine, GenuineLast, ObjectsFrom, SetFlag, HasFlag, ToU32, Complained;
    ReadRawIs(h, block);
    var flags := ReadRaw(h, block).flags;
    var head := ReadHead(block[512..], 512, was.(flashsize := |block|));
    if head.HeadOk? {
      LoadKeysIs(h, block[1024..], head.head.blocksize, 0, [], flags);
    }
  }

  // -------------------------------------------------------------------------
  // Writing a block

  /** Every object fits its buffers and carries the hash of its data. */
  ghost predicate Authentic(h: Hasher, keys: seq<Object>) {
    forall o | o in keys :: WellFormed(o) && Hashable(o) && o.hash == h(DataOf(o))
  }

  function EncodeAll(keys: seq<Object>): (s: seq<byte>)
    requires forall o | o in keys :: WellFormed(o)
    ensures |s| >= 72 * |keys|
  {
    if keys == [] then [] else Encode(keys[0]) + EncodeAll(keys[1..])
  }

  predicate Fits(keys: seq<Object>, size: nat)
    requires forall o | o in keys :: WellFormed(o)
  {
    HEADERS < size <= MAX_BLOCK && HEADERS + |EncodeAll(keys)| <= size
  }

  /** The raw head `normalkey_writetoblock` signs over the rest of the block. */
  function SignedRaw(h: Hasher, raw: RawHead, count: nat, rest: seq<byte>): (r: RawHead) {
    var r := raw.(keycnt := ToU32(count), wrtcnt := ToU32(raw.wrtcnt + 1));
    r.(headhash := h(HeadBytes(r)), hash := h(rest))
  }

  /** The block before its raw head is copied in. */
  function FilledBlock(keys: seq<Object>, block: seq<byte>): (b: seq<byte>)
    requires forall o | o in keys :: WellFormed(o)
    requires Fits(keys, |block|)
    ensures |b| == |block|
  {
    Splice(Splice(block, HEADERS, EncodeAll(keys)), RAW_SIZE, EncodeHead(EncHead(|EncodeAll(keys)|, |block|)))
  }

  /** What a successful `normalkey_writetoblock` makes of the block. */
  function WriteBlock(h: Hasher, keys: seq<Object>, raw: RawHead, block: seq<byte>): (b: seq<byte>)
    requires forall o | o in keys :: WellFormed(o)
    requires Fits(keys, |block|)
    ensures |b| == |block|
  {
    var b := FilledBlock(keys, block);
    Splice(b, 0, RawBytes(SignedRaw(h, raw, |keys|, b[RAW_SIZE..])))
  }

  // -------------------------------------------------------------------------
  // Block round trip

  /** The list `list_add` builds when it takes `keys` one by one. */
  function Reloaded(keys: seq<Object>, onto: seq<Object>): (r: seq<Object>)
    requires forall o | o in keys :: WellFormed(o)
    ensures |r| == |keys| + |onto|
  {
    if keys == [] then onto else Reloaded(keys[1..], [Trimmed(keys[0])] + onto)
  }

  lemma TrimmedData(o: Object)
    requires WellFormed(o) && Hashable(o)
    ensures Hashable(Trimmed(o)) && DataOf(Trimmed(o)) == DataOf(o) && Trimmed(o).hash == o.hash
  {
  }

  lemma ObjectAtRoundTrip(m: seq<byte>, size: u32, idx: nat, o: Object)
    requires WellFormed(o) && idx + |Encode(o)| <= size < 0x8000_0000 && At(m, idx, Encode(o))
    ensures ObjectAt(m, size, idx) == Ok(Trimmed(o), |Encode(o)|)
  {
    hide Encode, Tlv.ReadObject, Trimmed;
    var tail := m[idx..];
    assert tail[..|Encode(o)|] == m[idx..idx + |Encode(o)|];
    ObjectRoundTrip(o, tail, size - idx);
  }

  lemma {:induction false} KeysRoundTrip(h: Hasher, m: seq<byte>, size: u32, idx: nat,
                                         keys: seq<Object>, onto: seq<Object>, flags: u32)
    requires Authentic(h, keys) && idx + |EncodeAll(keys)| == size < 0x8000_0000
    requires At(m, idx, EncodeAll(keys))
    ensures LoadKeys(h, m, size, idx, onto, flags) == KeysRead(Reloaded(keys, onto), flags)
    decreases |keys|
  {
    hide Encode, Trimmed, ObjectAt, DataOf, Hashable, WellFormed;
    if keys == [] {
    } else {
      var o, rest := keys[0], EncodeAll(keys[1..]);
      AtSplit(m, idx, Encode(o), rest);
      TrimmedData(o);
      ObjectAtRoundTrip(m, size, idx, o);
      KeysRoundTrip(h, m, size, idx + |Encode(o)|, keys[1..], [Trimmed(o)] + onto, flags);
    }
  }

  /** The fields of a raw head can be read where it was stored. */
  lemma RawRoundTrip(b: seq<byte>, r: RawHead)
    requires At(b, 0, RawBytes(r))
    ensures b[..44] == HeadBytes(r) && b[44..76] == r.headhash && b[76..108] == r.hash && b[..10] == MARK + [0]
    ensures b[10..24] == Zeros(14)
    ensures U32At(b, 24) == r.keycnt && U32At(b, 28) == r.initcnt && U32At(b, 32) == r.wrtcnt
    ensures U32At(b, 36) == r.errcnt && U32At(b, 40) == r.flags
  {
    AtSplit(b, 0, HeadBytes(r), r.headhash + r.hash);
    AtSplit(b, 44, r.headhash, r.hash);
    var s5 := LE32(r.flags);
    var s4 := LE32(r.errcnt) + s5;
    var s3 := LE32(r.wrtcnt) + s4;
    var s2 := LE32(r.initcnt) + s3;
    AtSplit(b, 0, MARK + Zeros(7) + LE32(0) + LE32(0), LE32(r.keycnt) + s2);
    AtSplit(b, 24, LE32(r.keycnt), s2);
    AtSplit(b, 28, LE32(r.initcnt), s3);
    AtSplit(b, 32, LE32(r.wrtcnt), s4);
    AtSplit(b, 36, LE32(r.errcnt), s5);
    LoadAt(b, 24, r.keycnt);
    LoadAt(b, 28, r.initcnt);
    LoadAt(b, 32, r.wrtcnt);
    LoadAt(b, 36, r.errcnt);
    LoadAt(b, 40, r.flags);
    assert b[..10] == HeadBytes(r)[..10] && b[10..24] == HeadBytes(r)[10..24] == Zeros(14);
  }

  /** What a written block keeps of the old one: all but its three parts. */
  lemma BlockRest(h: Hasher, keys: seq<Object>, raw: RawHead, block: seq<byte>)
    requires (forall o | o in keys :: WellFormed(o)) && Fits(keys, |block|)
    ensures var b, end := WriteBlock(h, keys, raw, block), 1024 + |EncodeAll(keys)|;
            b[108..512] == block[108..512] && b[544..1024] == block[544..1024] && b[end..] == block[end..]
  {
    hide Encode, EncodeAll, EncodeHead, RawBytes, SignedRaw, Splice;
    var body, end := EncodeAll(keys), 1024 + |EncodeAll(keys)|;
    var head := EncodeHead(EncHead(|body|, |block|));
    var s1 := Splice(block, HEADERS, body);
    var s2 := Splice(s1, RAW_SIZE, head);
    var r := RawBytes(SignedRaw(h, raw, |keys|, s2[RAW_SIZE..]));
    SpliceRest(block, HEADERS, body, 108, 512);
    SpliceRest(block, HEADERS, body, 544, 1024);
    SpliceRest(block, HEADERS, body, end, |block|);
    SpliceRest(s1, RAW_SIZE, head, 108, 512);
    SpliceRest(s1, RAW_SIZE, head, 544, 1024);
    SpliceRest(s1, RAW_SIZE, head, end, |block|);
    SpliceRest(s2, 0, r, 108, 512);
    SpliceRest(s2, 0, r, 544, 1024);
    SpliceRest(s2, 0, r, end, |block|);
  }

  lemma SpliceRest(b: seq<byte>, off: nat, s: seq<byte>, i: nat, j: nat)
    requires off + |s| <= |b| && i <= j <= |b| && (j <= off || off + |s| <= i)
    ensures Splice(b, off, s)[i..j] == b[i..j]
  {
  }

  /** Where a written block holds its three parts. */
  lemma BlockLayout(h: Hasher, keys: seq<Object>, raw: RawHead, block: seq<byte>)
    requires (forall o | o in keys :: WellFormed(o)) && Fits(keys, |block|)
    ensures var b := WriteBlock(h, keys, raw, block);
            && At(b, 0, RawBytes(SignedRaw(h, raw, |keys|, b[RAW_SIZE..])))
            && At(b[RAW_SIZE..], 0, EncodeHead(EncHead(|EncodeAll(keys)|, |block|)))
            && At(b[HEADERS..], 0, EncodeAll(keys))
  {
    hide Encode, EncodeAll, EncodeHead, RawBytes, SignedRaw;
    var filled := FilledBlock(keys, block);
    var b := WriteBlock(h, keys, raw, block);
    assert b[RAW_SIZE..] == filled[RAW_SIZE..];
    assert b[HEADERS..] == filled[HEADERS..] == Splice(block, HEADERS, EncodeAll(keys))[HEADERS..];
  }

  /** The raw head of a signed block passes its own hash and is taken over. */
  lemma SignedRawReads(h: Hasher, raw: RawHead, count: nat, b: seq<byte>)
    requires |b| > HEADERS && At(b, 0, RawBytes(SignedRaw(h, raw, count, b[RAW_SIZE..])))
    ensures b[..10] == MARK + [0] && h(b[RAW_SIZE..]) == b[76..108]
    ensures ReadRaw(h, b) == SignedRaw(h, raw, count, b[RAW_SIZE..]).(initcnt := ToU32(raw.initcnt + 1))
  {
    var signed := SignedRaw(h, raw, count, b[RAW_SIZE..]);
    RawRoundTrip(b, signed);
    assert HeadBytes(signed) == HeadBytes(raw.(keycnt := ToU32(count), wrtcnt := ToU32(raw.wrtcnt + 1)));
  }

  /**
   A block this code wrote loads without an error flag: the same objects, in
   reverse order, the same count, one more initialisation.
   */
  lemma BlockRoundTrip(h: Hasher, keys: seq<Object>, raw: RawHead, block: seq<byte>, was: EncHead)
    requires Authentic(h, keys) && Fits(keys, |block|)
    ensures var b := WriteBlock(h, keys, raw, block);
            var signed := SignedRaw(h, raw, |keys|, b[RAW_SIZE..]);
            && ReadBlock(h, b, was) == Loaded(Reloaded(keys, []), signed.(initcnt := ToU32(raw.initcnt + 1)),
                                              EncHead(|EncodeAll(keys)|, |block|))
            && signed.keycnt == |keys| && signed.wrtcnt == ToU32(raw.wrtcnt + 1)
            && signed.flags == raw.flags && signed.errcnt == raw.errcnt
  {
    hide Encode, EncodeAll, EncodeHead, Tlv.ReadHead, LoadKeys, RawBytes, FilledBlock, WriteBlock,
      ReadRaw, HeadBytes, Reloaded, At;
    var b := WriteBlock(h, keys, raw, block);
    BlockLayout(h, keys, raw, block);
    SignedRawReads(h, raw, |keys|, b);
    HeadRoundTrip(EncHead(|EncodeAll(keys)|, |block|), b[RAW_SIZE..], HEAD_SIZE, was.(flashsize := |block|));
    KeysRoundTrip(h, b[HEADERS..], |EncodeAll(keys)|, 0, keys, [], raw.flags);
  }
}
