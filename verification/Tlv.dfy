/**
 The tag-length-value format of the normal-key block: writers that fill a
 buffer in place, readers that walk it with a cursor, and the round trip.
 */
module Tlv {
  import opened Options
  import opened Bytes

  const TAG_HEAD: u32 := 1
  const TAG_HEADSIZE: u32 := 2
  const TAG_OBJECT: u32 := 3
  const TAG_NAMESIZE: u32 := 4
  const TAG_NAME: u32 := 5
  const TAG_DATASIZE: u32 := 6
  const TAG_DATABUF: u32 := 7
  const TAG_TYPE: u32 := 8
  const TAG_ATTR: u32 := 9
  const TAG_HASHBUF: u32 := 10
  const TAG_FLASHSIZE: u32 := 11

  const NAME_LEN: nat := 80

  /** No kernel allocation reaches 2 GiB. */
  const MAX_ALLOC: nat := 0x7FFF_0000

  type Digest = s: seq<byte> | |s| == 32 witness seq(32, _ => 0)
  type NameBuf = s: seq<byte> | |s| == NAME_LEN witness seq(NAME_LEN, _ => 0)

  /** `struct storage_object`; `data` is the allocation behind `dataptr`. */
  datatype Object = Object(name: NameBuf, namesize: u32, attribute: u32, kind: u32,
                           datasize: u32, data: Option<seq<byte>>, hash: Digest)

  /** `struct storage_block_enc_head` */
  datatype EncHead = EncHead(blocksize: u32, flashsize: u32)

  /** Outcome of a reader; `Overrun` is an access outside the memory it was given or the object it fills. */
  datatype Parse<+T> = Ok(value: T, used: nat) | Rejected | Overrun

  /** The same for the block head, of which a rejected read keeps the fields it came to. */
  datatype HeadParse = HeadOk(head: EncHead, used: nat) | HeadRejected(head: EncHead) | HeadOverrun

  function Zeros(n: nat): (z: seq<byte>)
    ensures |z| == n
  {
    seq(n, _ => 0)
  }

  // -------------------------------------------------------------------------
  // The format

  function Padded(n: nat): (p: nat)
    ensures n <= p < n + 4 && p % 4 == 0
  {
    (n + 3) / 4 * 4
  }

  function U32Field(tag: u32, v: u32): (s: seq<byte>)
    ensures |s| == 12
  {
    LE32(tag) + LE32(4) + LE32(v)
  }

  function BufField(tag: u32, b: seq<byte>): (s: seq<byte>)
    requires |b| <= MAX_ALLOC
    ensures |s| == 8 + Padded(|b|)
  {
    LE32(tag) + LE32(Padded(|b|)) + b + Zeros(Padded(|b|) - |b|)
  }

  /** Name inside its buffer, data inside its allocation. */
  predicate WellFormed(o: Object) {
    && o.namesize <= NAME_LEN
    && (o.data.Some? ==> o.datasize <= |o.data.value| <= MAX_ALLOC)
  }

  predicate HasData(o: Object) {
    o.data.Some? && o.datasize != 0
  }

  function NameFields(o: Object): (s: seq<byte>)
    requires WellFormed(o)
  {
    if o.namesize == 0 then []
    else U32Field(TAG_NAMESIZE, o.namesize) + BufField(TAG_NAME, o.name[..o.namesize])
  }

  function DataFields(o: Object): (s: seq<byte>)
    requires WellFormed(o)
  {
    if !HasData(o) then []
    else U32Field(TAG_DATASIZE, o.datasize) + BufField(TAG_DATABUF, o.data.value[..o.datasize])
  }

  function TailFields(o: Object): (s: seq<byte>)
    ensures |s| == 64
  {
    BufField(TAG_HASHBUF, o.hash) + (U32Field(TAG_TYPE, o.kind) + U32Field(TAG_ATTR, o.attribute))
  }

  function Body(o: Object): (s: seq<byte>)
    requires WellFormed(o)
    ensures 64 <= |s| <= MAX_ALLOC + 256
  {
    NameFields(o) + (DataFields(o) + TailFields(o))
  }

  /** The bytes of one object. */
  function Encode(o: Object): (s: seq<byte>)
    requires WellFormed(o)
    ensures 72 <= |s| <= MAX_ALLOC + 264
  {
    LE32(TAG_OBJECT) + LE32(|Body(o)|) + Body(o)
  }

  function EncodeHead(h: EncHead): (s: seq<byte>)
    ensures |s| == 32
  {
    LE32(TAG_HEAD) + LE32(24) + (U32Field(TAG_HEADSIZE, h.blocksize) + U32Field(TAG_FLASHSIZE, h.flashsize))
  }

  // -------------------------------------------------------------------------
  // Readers, as functions of the memory `m`, the length `len` the caller
  // claims for it and the cursor

  datatype TagLength = TagLength(tag: u32, length: u32)

  /** `Tlv_ReadTl` at cursor `idx`. */
  function ReadTl(m: seq<byte>, len: int, idx: nat): (r: Parse<TagLength>)
    ensures r.Ok? ==> r.used == 8 && idx + 8 + r.value.length <= len
  {
    if len - idx < 8 then Rejected
    else if idx + 8 > |m| then Overrun
    else if 8 + U32At(m, idx + 4) > len - idx then Rejected
    else Ok(TagLength(U32At(m, idx), U32At(m, idx + 4)), 8)
  }

  function FreshObject(): (o: Object) {
    Object(Zeros(NAME_LEN), 0, 0, 0, 0, None, Zeros(32))
  }

  /** The `switch` of `Tlv_ReadObject` on the payload at `p`. */
  function TakeField(o: Object, t: TagLength, m: seq<byte>, p: nat): (r: Parse<Object>)
    ensures r.Ok? ==> r.used == t.length
  {
    if t.tag in {TAG_NAMESIZE, TAG_TYPE, TAG_ATTR, TAG_DATASIZE} then
      if p + 4 > |m| then Overrun else
      var v := U32At(m, p);
      Ok(if t.tag == TAG_NAMESIZE then o.(namesize := v) else if t.tag == TAG_TYPE then o.(kind := v)
         else if t.tag == TAG_ATTR then o.(attribute := v) else o.(datasize := v), t.length)
    else if t.tag == TAG_NAME then
      if o.namesize > NAME_LEN || p + o.namesize > |m| then Overrun
      else Ok(o.(name := m[p..p + o.namesize] + Zeros(NAME_LEN - o.namesize)), t.length)
    else if t.tag == TAG_HASHBUF then
      if t.length != 32 then Rejected else if p + 32 > |m| then Overrun
      else Ok(o.(hash := m[p..p + 32]), t.length)
    else if t.tag == TAG_DATABUF then
      if o.datasize > MAX_ALLOC then Rejected else if p + o.datasize > |m| then Overrun
      else Ok(o.(data := Some(m[p..p + o.datasize])), t.length)
    else Ok(o, t.length)
  }

  /** The field loop of `Tlv_ReadObject`. */
  function ReadFields(m: seq<byte>, len: int, idx: nat, sum: nat, o: Object): (r: Parse<Object>)
    requires sum <= len
    ensures r.Ok? ==> r.used == sum
    decreases sum - idx
  {
    if idx >= sum then Ok(o, sum) else
    match ReadTl(m, len, idx)
    case Rejected => Rejected
    case Overrun => Overrun
    case Ok(t, _) =>
      match TakeField(o, t, m, idx + 8)
      case Rejected => Rejected
      case Overrun => Overrun
      case Ok(o', _) => ReadFields(m, len, idx + 8 + t.length, sum, o')
  }

  /** `Tlv_ReadObject`. */
  function ReadObject(m: seq<byte>, len: int): (r: Parse<Object>)
    ensures r.Ok? ==> 8 <= r.used <= len
  {
    match ReadTl(m, len, 0)
    case Rejected => Rejected
    case Overrun => Overrun
    case Ok(t, _) =>
      if t.tag != TAG_OBJECT then Rejected
      else ReadFields(m, len, 8, 8 + t.length, FreshObject())
  }

  /** The field loop of `Tlv_ReadHead`. */
  function ReadHeadFields(m: seq<byte>, len: int, idx: nat, sum: nat, h: EncHead): (r: HeadParse)
    requires sum <= len
    ensures r.HeadOk? ==> r.used == sum
    decreases sum - idx
  {
    if idx >= sum then HeadOk(h, sum) else
    match ReadTl(m, len, idx)
    case Rejected => HeadRejected(h)
    case Overrun => HeadOverrun
    case Ok(t, _) =>
      if t.tag in {TAG_HEADSIZE, TAG_FLASHSIZE} then
        if idx + 12 > |m| then HeadOverrun else
        var v := U32At(m, idx + 8);
        ReadHeadFields(m, len, idx + 8 + t.length, sum,
                       if t.tag == TAG_HEADSIZE then h.(blocksize := v) else h.(flashsize := v))
      else ReadHeadFields(m, len, idx + 8 + t.length, sum, h)
  }

  /** `Tlv_ReadHead` into the head `h`. */
  function ReadHead(m: seq<byte>, len: int, h: EncHead): (r: HeadParse)
    ensures r.HeadOk? ==> 8 <= r.used <= len
  {
    match ReadTl(m, len, 0)
    case Rejected => HeadRejected(h)
    case Overrun => HeadOverrun
    case Ok(t, _) =>
      if t.tag != TAG_HEAD then HeadRejected(h)
      else ReadHeadFields(m, len, 8, 8 + t.length, h)
  }

  // -------------------------------------------------------------------------
  // Staying inside the memory

  /** How many bytes the reader takes from a field's payload; a rejected field gives none. */
  function Taken(o: Object, t: TagLength): (n: nat) {
    if t.tag in {TAG_NAMESIZE, TAG_TYPE, TAG_ATTR, TAG_DATASIZE} then 4
    else if t.tag == TAG_NAME then o.namesize
    else if t.tag == TAG_HASHBUF && t.length == 32 then 32
    else if t.tag == TAG_DATABUF && o.datasize <= MAX_ALLOC then o.datasize
    else 0
  }

  /** What is taken at `p` lies in the memory, and a name in its buffer. */
  predicate Stays(m: seq<byte>, p: nat, o: Object, t: TagLength) {
    p + Taken(o, t) <= |m| && (t.tag == TAG_NAME ==> o.namesize <= NAME_LEN)
  }

  /** The same for every field the reader comes to from `idx` on, as `o` stands then. */
  predicate AllStay(m: seq<byte>, len: int, idx: nat, sum: nat, o: Object)
    requires sum <= len
    decreases sum - idx
  {
    idx < sum && ReadTl(m, len, idx).Ok? ==>
      var t := ReadTl(m, len, idx).value;
      Stays(m, idx + 8, o, t) && (TakeField(o, t, m, idx + 8).Ok? ==>
                                    AllStay(m, len, idx + 8 + t.length, sum, TakeField(o, t, m, idx + 8).value))
  }

  lemma FieldStays(m: seq<byte>, p: nat, o: Object, t: TagLength)
    requires p + t.length <= |m|
    ensures TakeField(o, t, m, p).Overrun? <==> !Stays(m, p, o, t)
  {
  }

  lemma {:induction false} FieldsStay(m: seq<byte>, len: int, idx: nat, sum: nat, o: Object)
    requires sum <= len <= |m|
    ensures ReadFields(m, len, idx, sum, o).Overrun? <==> !AllStay(m, len, idx, sum, o)
    decreases sum - idx
  {
    hide TakeField, Stays;
    if idx >= sum || !ReadTl(m, len, idx).Ok? {
    } else {
      var t := ReadTl(m, len, idx).value;
      var f := TakeField(o, t, m, idx + 8);
      FieldStays(m, idx + 8, o, t);
      if f.Ok? { FieldsStay(m, len, idx + 8 + t.length, sum, f.value); }
    }
  }

  /** An object is read inside its memory exactly when every field it is read through stays there. */
  lemma StaysInside(m: seq<byte>, len: int)
    requires len <= |m|
    ensures ReadObject(m, len).Overrun? <==>
              var tl := ReadTl(m, len, 0);
              tl.Ok? && tl.value.tag == TAG_OBJECT && !AllStay(m, len, 8, 8 + tl.value.length, FreshObject())
  {
    hide ReadFields, AllStay;
    var tl := ReadTl(m, len, 0);
    if tl.Ok? {
      FieldsStay(m, len, 8, 8 + tl.value.length, FreshObject());
    }
  }

  /** A field at least as long as what is taken from it, with a name that fits its buffer, stays. */
  lemma TameStays(m: seq<byte>, p: nat, o: Object, t: TagLength)
    requires p + t.length <= |m| && Taken(o, t) <= t.length && (t.tag == TAG_NAME ==> o.namesize <= NAME_LEN)
    ensures Stays(m, p, o, t)
  {
  }

  /** A name of 81 bytes does not stay: it is read past the object's name buffer. */
  lemma LongNameOverruns()
    ensures var field := LE32(TAG_NAME) + LE32(84) + Zeros(84);
            var m := LE32(TAG_OBJECT) + LE32(104) + (U32Field(TAG_NAMESIZE, 81) + field);
            ReadObject(m, |m|) == Overrun
  {
    hide LE32, U32At, U32Field;
    var field := LE32(TAG_NAME) + LE32(84) + Zeros(84);
    var m := LE32(TAG_OBJECT) + LE32(104) + (U32Field(TAG_NAMESIZE, 81) + field);
    assert At(m, 0, m);
    AtSplit(m, 0, LE32(TAG_OBJECT) + LE32(104), U32Field(TAG_NAMESIZE, 81) + field);
    TlAt(m, |m|, 0, TAG_OBJECT, 104);
    AtSplit(m, 8, U32Field(TAG_NAMESIZE, 81), field);
    U32FieldAt(m, |m|, 8, TAG_NAMESIZE, 81);
    AtSplit(m, 20, LE32(TAG_NAME) + LE32(84), Zeros(84));
    TlAt(m, |m|, 20, TAG_NAME, 84);
    var o := FreshObject().(namesize := 81);
    assert ReadFields(m, |m|, 20, 112, o) == Overrun;
  }

  // -------------------------------------------------------------------------
  // What is read, whatever the memory holds

  /** A field met on the way: its payload is at `at`. */
  datatype Field = Field(tag: u32, length: u32, at: nat)

  /** The fields from a cursor on, one behind the other, and whether the last one ends where all should. */
  datatype Chain = Chain(fields: seq<Field>, whole: bool)

  function FieldsFrom(m: seq<byte>, len: int, idx: nat, sum: nat): (c: Chain)
    requires sum <= len <= |m|
    decreases sum - idx
  {
    if idx >= sum then Chain([], true)
    else if idx + 8 > len || idx + 8 + U32At(m, idx + 4) > len then Chain([], false)
    else
      var rest := FieldsFrom(m, len, idx + 8 + U32At(m, idx + 4), sum);
      Chain([Field(U32At(m, idx), U32At(m, idx + 4), idx + 8)] + rest.fields, rest.whole)
  }

  function WordAt(m: seq<byte>, p: nat): (v: u32) {
    if p + 4 <= |m| then U32At(m, p) else 0
  }

  /** The word in the last field of a tag, or `v` without one. */
  function LastWord(m: seq<byte>, fields: seq<Field>, tag: u32, v: u32): (r: u32)
    decreases |fields|
  {
    if fields == [] then v
    else LastWord(m, fields[1..], tag, if fields[0].tag == tag then WordAt(m, fields[0].at) else v)
  }

  /** A hash of another length than 32, or data whose size, as last given, no allocation reaches. */
  predicate Refused(m: seq<byte>, fields: seq<Field>, size: u32)
    decreases |fields|
  {
    fields != [] &&
    var f := fields[0];
    (f.tag == 10 && f.length != 32) || (f.tag == 7 && size > MAX_ALLOC)
    || Refused(m, fields[1..], if f.tag == 6 then WordAt(m, f.at) else size)
  }

  /** One field: the words it gives, and when it is refused. */
  lemma FieldTaken(o: Object, t: TagLength, m: seq<byte>, p: nat)
    ensures var r := TakeField(o, t, m, p);
            && (r.Rejected? ==> (t.tag == 10 && t.length != 32) || (t.tag == 7 && o.datasize > MAX_ALLOC))
            && (r.Ok? ==>
                  && !(t.tag == 10 && t.length != 32) && !(t.tag == 7 && o.datasize > MAX_ALLOC)
                  && r.value.namesize == (if t.tag == 4 then WordAt(m, p) else o.namesize)
                  && r.value.datasize == (if t.tag == 6 then WordAt(m, p) else o.datasize)
                  && r.value.kind == (if t.tag == 8 then WordAt(m, p) else o.kind)
                  && r.value.attribute == (if t.tag == 9 then WordAt(m, p) else o.attribute))
  {
  }

  /**
   For every content of the memory: unless reading leaves it, the fields are
   refused exactly when they do not follow one another to the end, or one of them
   is refused; otherwise the last field of each tag counts and unknown ones do not.
   */
  lemma {:induction false} FieldsTaken(m: seq<byte>, len: int, idx: nat, sum: nat, o: Object)
    requires sum <= len <= |m|
    ensures var r, c := ReadFields(m, len, idx, sum, o), FieldsFrom(m, len, idx, sum);
            && (!r.Overrun? ==> (r.Rejected? <==> !c.whole || Refused(m, c.fields, o.datasize)))
            && (r.Ok? ==>
                  && r.value.namesize == LastWord(m, c.fields, 4, o.namesize)
                  && r.value.datasize == LastWord(m, c.fields, 6, o.datasize)
                  && r.value.kind == LastWord(m, c.fields, 8, o.kind)
                  && r.value.attribute == LastWord(m, c.fields, 9, o.attribute))
    decreases sum - idx
  {
    hide TakeField, U32At, WordAt;
    if idx >= sum || !ReadTl(m, len, idx).Ok? {
    } else {
      var t := ReadTl(m, len, idx).value;
      var f, next := TakeField(o, t, m, idx + 8), idx + 8 + t.length;
      FieldTaken(o, t, m, idx + 8);
      var c, rest := FieldsFrom(m, len, idx, sum), FieldsFrom(m, len, next, sum);
      assert c.fields[1..] == rest.fields;
      if f.Ok? { FieldsTaken(m, len, next, sum, f.value); }
    }
  }

  /** The same for an object: its tag first, then the fields its length covers. */
  lemma ReadObjectIs(m: seq<byte>, len: int)
    requires len <= |m|
    ensures var r := ReadObject(m, len);
            if len < 8 || 8 + U32At(m, 4) > len || U32At(m, 0) != 3 then r == Rejected
            else
              var c := FieldsFrom(m, len, 8, 8 + U32At(m, 4));
              && (!r.Overrun? ==> (r.Rejected? <==> !c.whole || Refused(m, c.fields, 0)))
              && (r.Ok? ==>
                    && r.used == 8 + U32At(m, 4)
                    && r.value.namesize == LastWord(m, c.fields, 4, 0)
                    && r.value.datasize == LastWord(m, c.fields, 6, 0)
                    && r.value.kind == LastWord(m, c.fields, 8, 0)
                    && r.value.attribute == LastWord(m, c.fields, 9, 0))
  {
    hide ReadFields, FieldsFrom, Refused, LastWord, U32At;
    var tl := ReadTl(m, len, 0);
    if tl.Ok? && tl.value.tag == TAG_OBJECT {
      FieldsTaken(m, len, 8, 8 + tl.value.length, FreshObject());
    }
  }

  lemma {:induction false} HeadFieldsTaken(m: seq<byte>, len: int, idx: nat, sum: nat, h: EncHead)
    requires sum <= len <= |m|
    ensures var r, c := ReadHeadFields(m, len, idx, sum, h), FieldsFrom(m, len, idx, sum);
            !r.HeadOverrun? ==>
              && (r.HeadRejected? <==> !c.whole)
              && r.head == EncHead(LastWord(m, c.fields, 2, h.blocksize), LastWord(m, c.fields, 11, h.flashsize))
    decreases sum - idx
  {
    hide U32At;
    if idx >= sum || !ReadTl(m, len, idx).Ok? {
    } else {
      var t := ReadTl(m, len, idx).value;
      var next := idx + 8 + t.length;
      var c, rest := FieldsFrom(m, len, idx, sum), FieldsFrom(m, len, next, sum);
      assert c.fields[1..] == rest.fields;
      HeadFieldsTaken(m, len, next, sum,
                      EncHead(if t.tag == 2 then WordAt(m, idx + 8) else h.blocksize,
                              if t.tag == 11 then WordAt(m, idx + 8) else h.flashsize));
    }
  }

  /** And for the block head, which also keeps what it read before a refusal. */
  lemma ReadHeadIs(m: seq<byte>, len: int, h: EncHead)
    requires len <= |m|
    ensures var r := ReadHead(m, len, h);
            if len < 8 || 8 + U32At(m, 4) > len || U32At(m, 0) != 1 then r == HeadRejected(h)
            else
              var c := FieldsFrom(m, len, 8, 8 + U32At(m, 4));
              && (r.HeadOk? ==> r.used == 8 + U32At(m, 4))
              && (!r.HeadOverrun? ==>
                    && (r.HeadRejected? <==> !c.whole)
                    && r.head == EncHead(LastWord(m, c.fields, 2, h.blocksize), LastWord(m, c.fields, 11, h.flashsize)))
  {
    hide ReadHeadFields, FieldsFrom, LastWord, U32At;
    var tl := ReadTl(m, len, 0);
    if tl.Ok? && tl.value.tag == TAG_HEAD {
      HeadFieldsTaken(m, len, 8, 8 + tl.value.length, h);
    }
  }

  // -------------------------------------------------------------------------
  // Round trip

  /** What reading back gives: bytes past the name read as zero, the allocation is exact. */
  function Trimmed(o: Object): (t: Object)
    requires WellFormed(o)
    ensures WellFormed(t)
  {
    o.(name := o.name[..o.namesize] + Zeros(NAME_LEN - o.namesize),
       data := if HasData(o) then Some(o.data.value[..o.datasize]) else None,
       datasize := if HasData(o) then o.datasize else 0)
  }

  /** `s` sits in `m` at `p`. */
  predicate At(m: seq<byte>, p: nat, s: seq<byte>) {
    p + |s| <= |m| && m[p..p + |s|] == s
  }

  lemma AtSplit(m: seq<byte>, p: nat, a: seq<byte>, b: seq<byte>)
    requires At(m, p, a + b)
    ensures At(m, p, a) && At(m, p + |a|, b)
  {
    assert m[p..p + |a|] == (a + b)[..|a|] == a;
    assert m[p + |a|..p + |a| + |b|] == (a + b)[|a|..] == b;
  }

  /** The reader finds a field's tag and length. */
  lemma TlAt(m: seq<byte>, len: int, idx: nat, tag: u32, length: u32)
    requires At(m, idx, LE32(tag) + LE32(length)) && idx + 8 + length <= len
    ensures ReadTl(m, len, idx) == Ok(TagLength(tag, length), 8)
  {
    AtSplit(m, idx, LE32(tag), LE32(length));
    LoadAt(m, idx, tag);
    LoadAt(m, idx + 4, length);
  }

  lemma U32FieldAt(m: seq<byte>, len: int, idx: nat, tag: u32, v: u32)
    requires At(m, idx, U32Field(tag, v)) && idx + 12 <= len
    ensures ReadTl(m, len, idx) == Ok(TagLength(tag, 4), 8) && U32At(m, idx + 8) == v
  {
    AtSplit(m, idx, LE32(tag) + LE32(4), LE32(v));
    TlAt(m, len, idx, tag, 4);
    LoadAt(m, idx + 8, v);
  }

  lemma BufFieldAt(m: seq<byte>, len: int, idx: nat, tag: u32, b: seq<byte>)
    requires |b| <= MAX_ALLOC && At(m, idx, BufField(tag, b)) && idx + 8 + Padded(|b|) <= len
    ensures ReadTl(m, len, idx) == Ok(TagLength(tag, Padded(|b|)), 8)
    ensures idx + 8 + |b| <= |m| && m[idx + 8..idx + 8 + |b|] == b
  {
    AtSplit(m, idx, LE32(tag) + LE32(Padded(|b|)) + b, Zeros(Padded(|b|) - |b|));
    AtSplit(m, idx, LE32(tag) + LE32(Padded(|b|)), b);
    TlAt(m, len, idx, tag, Padded(|b|));
  }

  lemma ReadName(m: seq<byte>, len: int, idx: nat, sum: nat, o: Object, from: Object)
    requires WellFormed(o) && idx + |NameFields(o)| <= sum <= len && At(m, idx, NameFields(o))
    requires from.namesize == 0 && from.name == Zeros(NAME_LEN)
    ensures ReadFields(m, len, idx, sum, from)
            == ReadFields(m, len, idx + |NameFields(o)|, sum, from.(namesize := o.namesize, name := Trimmed(o).name))
  {
    if o.namesize == 0 {
      assert Trimmed(o).name == Zeros(NAME_LEN);
    } else {
      var name := o.name[..o.namesize];
      AtSplit(m, idx, U32Field(TAG_NAMESIZE, o.namesize), BufField(TAG_NAME, name));
      U32FieldAt(m, len, idx, TAG_NAMESIZE, o.namesize);
      BufFieldAt(m, len, idx + 12, TAG_NAME, name);
    }
  }

  lemma ReadData(m: seq<byte>, len: int, idx: nat, sum: nat, o: Object, from: Object)
    requires WellFormed(o) && idx + |DataFields(o)| <= sum <= len && At(m, idx, DataFields(o))
    requires from.datasize == 0 && from.data == None
    ensures ReadFields(m, len, idx, sum, from)
            == ReadFields(m, len, idx + |DataFields(o)|, sum,
                          from.(datasize := Trimmed(o).datasize, data := Trimmed(o).data))
  {
    if HasData(o) {
      var data := o.data.value[..o.datasize];
      AtSplit(m, idx, U32Field(TAG_DATASIZE, o.datasize), BufField(TAG_DATABUF, data));
      U32FieldAt(m, len, idx, TAG_DATASIZE, o.datasize);
      BufFieldAt(m, len, idx + 12, TAG_DATABUF, data);
    }
  }

  lemma ReadTail(m: seq<byte>, len: int, idx: nat, o: Object, from: Object)
    requires idx + 64 <= len && At(m, idx, TailFields(o))
    ensures ReadFields(m, len, idx, idx + 64, from)
            == Ok(from.(hash := o.hash, kind := o.kind, attribute := o.attribute), idx + 64)
  {
    AtSplit(m, idx, BufField(TAG_HASHBUF, o.hash), U32Field(TAG_TYPE, o.kind) + U32Field(TAG_ATTR, o.attribute));
    AtSplit(m, idx + 40, U32Field(TAG_TYPE, o.kind), U32Field(TAG_ATTR, o.attribute));
    BufFieldAt(m, len, idx, TAG_HASHBUF, o.hash);
    U32FieldAt(m, len, idx + 40, TAG_TYPE, o.kind);
    U32FieldAt(m, len, idx + 52, TAG_ATTR, o.attribute);
    var o1 := from.(hash := o.hash);
    var o2 := o1.(kind := o.kind);
    var o3 := o2.(attribute := o.attribute);
    assert ReadFields(m, len, idx + 52, idx + 64, o2) == ReadFields(m, len, idx + 64, idx + 64, o3);
    assert ReadFields(m, len, idx + 40, idx + 64, o1) == ReadFields(m, len, idx + 52, idx + 64, o2);
  }

  /**
   Reading an object where it was written gives it back and consumes exactly
   its bytes, whatever follows it.
   */
  lemma ObjectRoundTrip(o: Object, m: seq<byte>, len: int)
    requires WellFormed(o) && At(m, 0, Encode(o)) && |Encode(o)| <= len
    ensures ReadObject(m, len) == Ok(Trimmed(o), |Encode(o)|)
  {
    hide ReadFields, ReadTl, LE32, NameFields, DataFields, TailFields, At;
    var body := Body(o);
    AtSplit(m, 0, LE32(TAG_OBJECT) + LE32(|body|), body);
    TlAt(m, len, 0, TAG_OBJECT, |body|);
    AtSplit(m, 8, NameFields(o), DataFields(o) + TailFields(o));
    var i := 8 + |NameFields(o)|;
    AtSplit(m, i, DataFields(o), TailFields(o));
    var o0 := FreshObject();
    var o1 := o0.(namesize := o.namesize, name := Trimmed(o).name);
    var o2 := o1.(datasize := Trimmed(o).datasize, data := Trimmed(o).data);
    ReadName(m, len, 8, 8 + |body|, o, o0);
    ReadData(m, len, i, 8 + |body|, o, o1);
    ReadTail(m, len, i + |DataFields(o)|, o, o2);
  }

  lemma HeadRoundTrip(h: EncHead, m: seq<byte>, len: int, from: EncHead)
    requires At(m, 0, EncodeHead(h)) && 32 <= len
    ensures ReadHead(m, len, from) == HeadOk(h, 32)
  {
    var size, flash := U32Field(TAG_HEADSIZE, h.blocksize), U32Field(TAG_FLASHSIZE, h.flashsize);
    AtSplit(m, 0, LE32(TAG_HEAD) + LE32(24), size + flash);
    AtSplit(m, 8, size, flash);
    TlAt(m, len, 0, TAG_HEAD, 24);
    U32FieldAt(m, len, 8, TAG_HEADSIZE, h.blocksize);
    U32FieldAt(m, len, 20, TAG_FLASHSIZE, h.flashsize);
    var h1 := from.(blocksize := h.blocksize);
    assert ReadHeadFields(m, len, 20, 32, h1) == ReadHeadFields(m, len, 32, 32, h1.(flashsize := h.flashsize));
  }

  // -------------------------------------------------------------------------
  // The format, byte by byte

  /** A 32-bit field at `p`: tag, length 4, value. */
  predicate WordFieldAt(s: seq<byte>, p: nat, tag: u32, v: u32) {
    p + 12 <= |s| && U32At(s, p) == tag && U32At(s, p + 4) == 4 && U32At(s, p + 8) == v
  }

  /** A buffer at `p`: tag, length rounded up to a multiple of four, the bytes, zeros. */
  predicate BytesFieldAt(s: seq<byte>, p: nat, tag: u32, b: seq<byte>) {
    && p + 8 + Padded(|b|) <= |s| && U32At(s, p) == tag && U32At(s, p + 4) == Padded(|b|)
    && s[p + 8..p + 8 + |b|] == b && s[p + 8 + |b|..p + 8 + Padded(|b|)] == Zeros(Padded(|b|) - |b|)
  }

  lemma WordFieldIs(s: seq<byte>, p: nat, tag: u32, v: u32)
    requires At(s, p, U32Field(tag, v))
    ensures WordFieldAt(s, p, tag, v)
  {
    hide LE32, U32At;
    AtSplit(s, p, LE32(tag) + LE32(4), LE32(v));
    AtSplit(s, p, LE32(tag), LE32(4));
    LoadAt(s, p, tag);
    LoadAt(s, p + 4, 4);
    LoadAt(s, p + 8, v);
  }

  lemma BytesFieldIs(s: seq<byte>, p: nat, tag: u32, b: seq<byte>)
    requires |b| <= MAX_ALLOC && At(s, p, BufField(tag, b))
    ensures BytesFieldAt(s, p, tag, b)
  {
    hide LE32, U32At, Padded;
    AtSplit(s, p, LE32(tag) + LE32(Padded(|b|)) + b, Zeros(Padded(|b|) - |b|));
    AtSplit(s, p, LE32(tag) + LE32(Padded(|b|)), b);
    AtSplit(s, p, LE32(tag), LE32(Padded(|b|)));
    LoadAt(s, p, tag);
    LoadAt(s, p + 4, Padded(|b|));
  }

  /**
   Where an encoded object holds what: size and bytes of the name and of the
   data, each pair only if there is any, then hash, type and attribute, behind
   one tag and the length of it all.
   */
  lemma ObjectLayout(o: Object)
    requires WellFormed(o)
    ensures var s := Encode(o);
            var d := 8 + if o.namesize == 0 then 0 else 20 + Padded(o.namesize);
            var t := d + if o.datasize == 0 || o.data.None? then 0 else 20 + Padded(o.datasize);
            && |s| == t + 64 && U32At(s, 0) == 3 && U32At(s, 4) == t + 56
            && (o.namesize > 0 ==> WordFieldAt(s, 8, 4, o.namesize) && BytesFieldAt(s, 20, 5, o.name[..o.namesize]))
            && (o.datasize > 0 && o.data.Some? ==>
                  WordFieldAt(s, d, 6, o.datasize) && BytesFieldAt(s, d + 12, 7, o.data.value[..o.datasize]))
            && BytesFieldAt(s, t, 10, o.hash)
            && WordFieldAt(s, t + 40, 8, o.kind) && WordFieldAt(s, t + 52, 9, o.attribute)
  {
    hide LE32, U32At, Padded, BytesFieldAt, WordFieldAt, U32Field, BufField, At;
    var s, body := Encode(o), Body(o);
    WholeAt(s);
    AtSplit(s, 0, LE32(TAG_OBJECT) + LE32(|body|), body);
    HeaderIs(s, TAG_OBJECT, |body|);
    AtSplit(s, 8, NameFields(o), DataFields(o) + TailFields(o));
    var d := 8 + |NameFields(o)|;
    AtSplit(s, d, DataFields(o), TailFields(o));
    if o.namesize > 0 {
      PairIs(s, 8, TAG_NAMESIZE, o.namesize, TAG_NAME, o.name[..o.namesize]);
    }
    if HasData(o) {
      PairIs(s, d, TAG_DATASIZE, o.datasize, TAG_DATABUF, o.data.value[..o.datasize]);
    }
    TailIs(s, d + |DataFields(o)|, o);
  }

  lemma WholeAt(s: seq<byte>)
    ensures At(s, 0, s)
  {
  }

  lemma HeaderIs(s: seq<byte>, tag: u32, length: u32)
    requires At(s, 0, LE32(tag) + LE32(length))
    ensures |s| >= 8 && U32At(s, 0) == tag && U32At(s, 4) == length
  {
    AtSplit(s, 0, LE32(tag), LE32(length));
    LoadAt(s, 0, tag);
    LoadAt(s, 4, length);
  }

  lemma PairIs(s: seq<byte>, p: nat, sizeTag: u32, size: u32, tag: u32, b: seq<byte>)
    requires |b| <= MAX_ALLOC && At(s, p, U32Field(sizeTag, size) + BufField(tag, b))
    ensures WordFieldAt(s, p, sizeTag, size) && BytesFieldAt(s, p + 12, tag, b)
  {
    hide U32Field, BufField, At, WordFieldAt, BytesFieldAt;
    AtSplit(s, p, U32Field(sizeTag, size), BufField(tag, b));
    WordFieldIs(s, p, sizeTag, size);
    BytesFieldIs(s, p + 12, tag, b);
  }

  lemma TailIs(s: seq<byte>, p: nat, o: Object)
    requires At(s, p, TailFields(o))
    ensures BytesFieldAt(s, p, 10, o.hash)
    ensures WordFieldAt(s, p + 40, 8, o.kind) && WordFieldAt(s, p + 52, 9, o.attribute)
  {
    hide U32Field, BufField, At, WordFieldAt, BytesFieldAt;
    AtSplit(s, p, BufField(TAG_HASHBUF, o.hash), U32Field(TAG_TYPE, o.kind) + U32Field(TAG_ATTR, o.attribute));
    AtSplit(s, p + 40, U32Field(TAG_TYPE, o.kind), U32Field(TAG_ATTR, o.attribute));
    BytesFieldIs(s, p, TAG_HASHBUF, o.hash);
    WordFieldIs(s, p + 40, TAG_TYPE, o.kind);
    WordFieldIs(s, p + 52, TAG_ATTR, o.attribute);
  }

  /** The same for the block head. */
  lemma HeadLayout(h: EncHead)
    ensures var s := EncodeHead(h);
            && U32At(s, 0) == 1 && U32At(s, 4) == 24
            && WordFieldAt(s, 8, 2, h.blocksize) && WordFieldAt(s, 20, 11, h.flashsize)
  {
    hide LE32, U32At, WordFieldAt, U32Field, At;
    var s := EncodeHead(h);
    var size, flash := U32Field(TAG_HEADSIZE, h.blocksize), U32Field(TAG_FLASHSIZE, h.flashsize);
    WholeAt(s);
    AtSplit(s, 0, LE32(TAG_HEAD) + LE32(24), size + flash);
    HeaderIs(s, TAG_HEAD, 24);
    AtSplit(s, 8, size, flash);
    WordFieldIs(s, 8, TAG_HEADSIZE, h.blocksize);
    WordFieldIs(s, 20, TAG_FLASHSIZE, h.flashsize);
  }

  // -------------------------------------------------------------------------
  // The code: writers fill `out` from `off` on, with `len` bytes of room

  function Splice(b: seq<byte>, off: nat, s: seq<byte>): (r: seq<byte>)
    requires off + |s| <= |b|
    ensures |r| == |b|
  {
    b[..off] + s + b[off + |s|..]
  }

  lemma SpliceNext(b: seq<byte>, off: nat, s: seq<byte>, t: seq<byte>)
    requires off + |s| + |t| <= |b|
    ensures Splice(Splice(b, off, s), off + |s|, t) == Splice(b, off, s + t)
  {
  }

  lemma SpliceFits(b: seq<byte>, off: nat, s: seq<byte>, t: seq<byte>, len: int, fits: bool)
    requires off + len <= |b| && (fits ==> |s| + |t| <= len)
    ensures fits ==> Splice(Splice(b, off, s), off + |s|, t) == Splice(b, off, s + t)
  {
  }

  /** Overwriting four bytes inside what was spliced. */
  lemma SpliceInside(b: seq<byte>, off: nat, pre: seq<byte>, s: seq<byte>, t: seq<byte>, post: seq<byte>)
    requires |s| == |t| && off + |pre| + |s| + |post| <= |b|
    ensures Splice(Splice(b, off, pre + s + post), off + |pre|, t) == Splice(b, off, pre + t + post)
  {
  }

  /** Nothing outside the room at `off` changed. */
  predicate SameOutside(b: seq<byte>, c: seq<byte>, off: nat, len: int) {
    && |b| == |c| && 0 <= len && off + len <= |b|
    && b[..off] == c[..off] && b[off + len..] == c[off + len..]
  }

  lemma Regroup(a: seq<byte>, b: seq<byte>, c: seq<byte>)
    ensures a + b + c == a + (b + c)
  {
  }

  /** Writing back what is already there changes nothing. */
  lemma SpliceSame(b: seq<byte>, off: nat, s: seq<byte>, k: nat)
    requires off + |s| + k <= |b|
    ensures Splice(b, off, s) == Splice(b, off, s + b[off + |s|..off + |s| + k])
  {
  }

  lemma SpliceOutside(b: seq<byte>, off: nat, s: seq<byte>, len: int)
    requires |s| <= len && off + len <= |b|
    ensures SameOutside(b, Splice(b, off, s), off, len)
  {
  }

  method StoreU32(out: array<byte>, p: nat, v: u32)
    requires p + 4 <= out.Length
    modifies out
    ensures out[..] == Splice(old(out[..]), p, LE32(v))
  {
    var b := LE32(v);
    out[p], out[p + 1], out[p + 2], out[p + 3] := b[0], b[1], b[2], b[3];
  }

  method WriteUint32(out: array<byte>, off: nat, len: int, tag: u32, value: u32) returns (n: nat)
    requires 0 <= len && off + len <= out.Length
    modifies out
    ensures n == if len < 12 then 0 else 12
    ensures out[..] == if n == 0 then old(out[..]) else Splice(old(out[..]), off, U32Field(tag, value))
  {
    if len < 12 {
      return 0;
    }
    ghost var b := out[..];
    StoreU32(out, off, tag);
    StoreU32(out, off + 4, 4);
    SpliceNext(b, off, LE32(tag), LE32(4));
    StoreU32(out, off + 8, value);
    SpliceNext(b, off, LE32(tag) + LE32(4), LE32(value));
    return 12;
  }

  /** `memset` of `room` bytes to zero, then `memcpy` of `input` over them. */
  method CopyPadded(out: array<byte>, p: nat, room: nat, input: seq<byte>)
    requires |input| <= room && p + room <= out.Length
    modifies out
    ensures out[..] == Splice(old(out[..]), p, input + Zeros(room - |input|))
  {
    forall i | p <= i < p + room {
      out[i] := 0;
    }
    forall i | p <= i < p + |input| {
      out[i] := input[i - p];
    }
  }

  method WriteBuf(out: array<byte>, off: nat, len: int, tag: u32, input: seq<byte>) returns (n: nat)
    requires 0 <= len && off + len <= out.Length && |input| <= MAX_ALLOC
    modifies out
    ensures n == if len < 8 + Padded(|input|) then 0 else 8 + Padded(|input|)
    ensures out[..] == if n == 0 then old(out[..]) else Splice(old(out[..]), off, BufField(tag, input))
  {
    var tmplen := (|input| + 3) / 4 * 4;
    if len < ToS32(8 + tmplen) {
      return 0;
    }
    PutBuf(out, off, tag, tmplen, input);
    return tmplen + 8;
  }

  /** Tag, padded length, and the input with zeros behind it. */
  method PutBuf(out: array<byte>, off: nat, tag: u32, room: u32, input: seq<byte>)
    requires |input| <= room && off + 8 + room <= out.Length
    modifies out
    ensures out[..] == Splice(old(out[..]), off, LE32(tag) + LE32(room) + input + Zeros(room - |input|))
  {
    hide Splice, LE32, Zeros;
    ghost var b, pad := out[..], Zeros(room - |input|);
    StoreU32(out, off, tag);
    StoreU32(out, off + 4, room);
    SpliceNext(b, off, LE32(tag), LE32(room));
    CopyPadded(out, off + 8, room, input);
    SpliceNext(b, off, LE32(tag) + LE32(room), input + pad);
    Regroup(LE32(tag) + LE32(room), input, pad);
  }

  /** Two fields in a row: a size and the buffer it describes. */
  method WriteSized(out: array<byte>, off: nat, len: int, sizeTag: u32, bufTag: u32, input: seq<byte>)
    returns (n: nat)
    requires 0 <= len && off + len <= out.Length && |input| <= MAX_ALLOC
    modifies out
    ensures n == if len < 20 + Padded(|input|) then 0 else 20 + Padded(|input|)
    ensures n != 0 ==> out[..] == Splice(old(out[..]), off, U32Field(sizeTag, |input|) + BufField(bufTag, input))
    ensures SameOutside(old(out[..]), out[..], off, len)
  {
    ghost var b := out[..];
    var n1 := WriteUint32(out, off, len, sizeTag, |input|);
    if n1 == 0 { return 0; }
    var n2 := WriteBuf(out, off + n1, len - n1, bufTag, input);
    SpliceOutside(b, off, U32Field(sizeTag, |input|), len);
    if n2 == 0 { return 0; }
    SpliceNext(b, off, U32Field(sizeTag, |input|), BufField(bufTag, input));
    SpliceOutside(b, off, U32Field(sizeTag, |input|) + BufField(bufTag, input), len);
    return n1 + n2;
  }

  /** The hash, type and attribute fields. */
  method WriteTail(o: Object, out: array<byte>, off: nat, len: int) returns (n: nat)
    requires 0 <= len && off + len <= out.Length
    modifies out
    ensures n == if len < 64 then 0 else 64
    ensures n != 0 ==> out[..] == Splice(old(out[..]), off, TailFields(o))
    ensures SameOutside(old(out[..]), out[..], off, len)
  {
    hide Splice, U32Field, BufField;
    ghost var b := out[..];
    ghost var hash := BufField(TAG_HASHBUF, o.hash);
    ghost var kind, attr := U32Field(TAG_TYPE, o.kind), U32Field(TAG_ATTR, o.attribute);
    var n1 := WriteBuf(out, off, len, TAG_HASHBUF, o.hash);
    if n1 == 0 { return 0; }
    SpliceOutside(b, off, hash, len);
    var n2 := WriteUint32(out, off + n1, len - n1, TAG_TYPE, o.kind);
    if n2 == 0 { return 0; }
    SpliceNext(b, off, hash, kind);
    SpliceOutside(b, off, hash + kind, len);
    var n3 := WriteUint32(out, off + n1 + n2, len - n1 - n2, TAG_ATTR, o.attribute);
    if n3 == 0 { return 0; }
    SpliceNext(b, off, hash + kind, attr);
    assert hash + kind + attr == TailFields(o);
    SpliceOutside(b, off, TailFields(o), len);
    return n1 + n2 + n3;
  }

  lemma SameOutsideInner(b: seq<byte>, off: nat, s: seq<byte>, len: int, c: seq<byte>)
    requires |s| <= len && off + len <= |b|
    requires SameOutside(Splice(b, off, s), c, off + |s|, len - |s|)
    ensures SameOutside(b, c, off, len)
  {
  }

  /** The name fields, which an empty name does without. */
  method WriteName(o: Object, out: array<byte>, off: nat, len: int) returns (ok: bool, n: nat)
    requires WellFormed(o) && 0 <= len && off + len <= out.Length
    modifies out
    ensures n == |NameFields(o)| && (ok <==> n <= len)
    ensures ok ==> out[..] == Splice(old(out[..]), off, NameFields(o))
    ensures SameOutside(old(out[..]), out[..], off, len)
  {
    ok, n := true, 0;
    if o.namesize != 0 {
      n := WriteSized(out, off, len, TAG_NAMESIZE, TAG_NAME, o.name[..o.namesize]);
      if n == 0 { ok, n := false, 20 + Padded(o.namesize); }
    }
  }

  /** The data fields, which an object without data does without. */
  method WriteData(o: Object, out: array<byte>, off: nat, len: int) returns (ok: bool, n: nat)
    requires WellFormed(o) && 0 <= len && off + len <= out.Length
    modifies out
    ensures n == |DataFields(o)| && (ok <==> n <= len)
    ensures ok ==> out[..] == Splice(old(out[..]), off, DataFields(o))
    ensures SameOutside(old(out[..]), out[..], off, len)
  {
    ok, n := true, 0;
    if o.data.Some? && o.datasize != 0 {
      n := WriteSized(out, off, len, TAG_DATASIZE, TAG_DATABUF, o.data.value[..o.datasize]);
      if n == 0 { ok, n := false, 20 + Padded(o.datasize); }
    }
  }

  method WriteObject(o: Object, out: array<byte>, off: nat, len: int) returns (n: nat)
    requires WellFormed(o) && 0 <= len && off + len <= out.Length
    modifies out
    ensures n == if |Encode(o)| <= len then |Encode(o)| else 0
    ensures n != 0 ==> out[..] == Splice(old(out[..]), off, Encode(o))
    ensures SameOutside(old(out[..]), out[..], off, len)
  {
    if len < 8 {
      return 0;
    }
    ghost var b := out[..];
    ghost var sum := b[off + 4..off + 8];
    ghost var done := LE32(TAG_OBJECT) + sum;
    StoreU32(out, off, TAG_OBJECT);
    assert out[..] == Splice(b, off, done);
    var ok, n1 := WriteFields(o, out, off + 8, len - 8);
    SameOutsideInner(b, off, done, len, out[..]);
    if !ok { return 0; }
    SpliceNext(b, off, done, Body(o));
    StoreU32(out, off + 4, n1);
    SpliceInside(b, off, LE32(TAG_OBJECT), sum, LE32(n1), Body(o));
    SpliceOutside(b, off, Encode(o), len);
    return n1 + 8;
  }

  /** The data fields and the fields behind them. */
  method WriteRest(o: Object, out: array<byte>, off: nat, len: int) returns (ok: bool, n: nat)
    requires WellFormed(o) && 0 <= len && off + len <= out.Length
    modifies out
    ensures n == |DataFields(o)| + 64 && (ok <==> n <= len)
    ensures ok ==> out[..] == Splice(old(out[..]), off, DataFields(o) + TailFields(o))
    ensures SameOutside(old(out[..]), out[..], off, len)
  {
    hide WellFormed, DataFields, TailFields, Splice, SameOutside;
    ghost var b := out[..];
    ok, n := WriteData(o, out, off, len);
    if !ok { return false, n + 64; }
    var k := WriteTail(o, out, off + n, len - n);
    SameOutsideInner(b, off, DataFields(o), len, out[..]);
    SpliceFits(b, off, DataFields(o), TailFields(o), len, k != 0);
    return k != 0, n + 64;
  }

  /** Everything behind the object's own tag and length. */
  method WriteFields(o: Object, out: array<byte>, off: nat, len: int) returns (ok: bool, n: nat)
    requires WellFormed(o) && 0 <= len && off + len <= out.Length
    modifies out
    ensures n == |Body(o)| && (ok <==> n <= len)
    ensures ok ==> out[..] == Splice(old(out[..]), off, Body(o))
    ensures SameOutside(old(out[..]), out[..], off, len)
  {
    ghost var b := out[..];
    ok, n := WriteName(o, out, off, len);
    if !ok { return false, |Body(o)|; }
    var k;
    ok, k := WriteRest(o, out, off + n, len - n);
    SameOutsideInner(b, off, NameFields(o), len, out[..]);
    SpliceFits(b, off, NameFields(o), DataFields(o) + TailFields(o), len, ok);
    n := n + k;
  }

  method WriteHead(h: EncHead, out: array<byte>, off: nat, len: int) returns (n: nat)
    requires 0 <= len && off + len <= out.Length
    modifies out
    ensures n == if 32 <= len then 32 else 0
    ensures n != 0 ==> out[..] == Splice(old(out[..]), off, EncodeHead(h))
    ensures SameOutside(old(out[..]), out[..], off, len)
  {
    if len < 8 {
      return 0;
    }
    hide Splice, LE32, U32Field, SameOutside, Zeros;
    ghost var b := out[..];
    ghost var sum := b[off + 4..off + 8];
    ghost var size, flash := U32Field(TAG_HEADSIZE, h.blocksize), U32Field(TAG_FLASHSIZE, h.flashsize);
    StoreU32(out, off, TAG_HEAD);
    ghost var done := LE32(TAG_HEAD) + sum;
    SpliceSame(b, off, LE32(TAG_HEAD), 4);
    SpliceOutside(b, off, done, len);
    var k := WriteUint32(out, off + 8, len - 8, TAG_HEADSIZE, h.blocksize);
    if k == 0 { return 0; }
    SpliceNext(b, off, done, size);
    SpliceOutside(b, off, done + size, len);
    k := WriteUint32(out, off + 20, len - 20, TAG_FLASHSIZE, h.flashsize);
    if k == 0 { return 0; }
    SpliceNext(b, off, done + size, flash);
    Regroup(done, size, flash);
    StoreU32(out, off + 4, 24);
    SpliceInside(b, off, LE32(TAG_HEAD), sum, LE32(24), size + flash);
    SpliceOutside(b, off, EncodeHead(h), len);
    return 32;
  }

  /** `Tlv_ReadObject` with its cursor. */
  method ReadObjectAt(m: seq<byte>, len: int) returns (r: Parse<Object>)
    ensures r == ReadObject(m, len)
  {
    var tl := ReadTl(m, len, 0);
    if !tl.Ok? { return if tl.Rejected? then Rejected else Overrun; }
    if tl.value.tag != TAG_OBJECT { return Rejected; }
    var idx, sum := 8, 8 + tl.value.length;
    var o := FreshObject();
    while idx < sum
      invariant sum <= len
      invariant ReadObject(m, len) == ReadFields(m, len, idx, sum, o)
      decreases sum - idx
    {
      var t := ReadTl(m, len, idx);
      if !t.Ok? { return if t.Rejected? then Rejected else Overrun; }
      var f := TakeField(o, t.value, m, idx + 8);
      if !f.Ok? { return f; }
      o, idx := f.value, idx + 8 + t.value.length;
    }
    return Ok(o, sum);
  }

  /** `Tlv_ReadHead` with its cursor. */
  method ReadHeadAt(m: seq<byte>, len: int, into: EncHead) returns (r: HeadParse)
    ensures r == ReadHead(m, len, into)
  {
    var tl := ReadTl(m, len, 0);
    if !tl.Ok? { return if tl.Rejected? then HeadRejected(into) else HeadOverrun; }
    if tl.value.tag != TAG_HEAD { return HeadRejected(into); }
    var idx, sum := 8, 8 + tl.value.length;
    var h := into;
    while idx < sum
      invariant sum <= len
      invariant ReadHead(m, len, into) == ReadHeadFields(m, len, idx, sum, h)
      decreases sum - idx
    {
      var t := ReadTl(m, len, idx);
      if !t.Ok? { return if t.Rejected? then HeadRejected(h) else HeadOverrun; }
      if t.value.tag == TAG_HEADSIZE || t.value.tag == TAG_FLASHSIZE {
        if idx + 12 > |m| { return HeadOverrun; }
        var v := U32At(m, idx + 8);
        h := if t.value.tag == TAG_HEADSIZE then h.(blocksize := v) else h.(flashsize := v);
      }
      idx := idx + 8 + t.value.length;
    }
    return HeadOk(h, sum);
  }
}
