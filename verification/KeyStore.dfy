/**
 The key list in memory as a finite map from names to values, and the code
 that keeps it, loads it from a block and saves it to one.
 */
module KeyStore {
  import opened Options
  import opened Bytes
  import opened Tlv
  import opened NormalKey

  datatype Value = Value(data: seq<byte>, attribute: u32, kind: u32, hash: Digest)

  function NameOf(o: Object): (n: seq<byte>)
    requires WellFormed(o)
  {
    o.name[..o.namesize]
  }

  function ValueOf(o: Object): (v: Value)
    requires Hashable(o)
  {
    Value(DataOf(o), o.attribute, o.kind, o.hash)
  }

  predicate Sound(keys: seq<Object>) {
    forall o | o in keys :: WellFormed(o) && Hashable(o)
  }

  /** The map a list stands for. */
  ghost function Contents(keys: seq<Object>): (m: map<seq<byte>, Value>)
    requires Sound(keys)
  {
    if keys == [] then map[] else Contents(keys[1..])[NameOf(keys[0]) := ValueOf(keys[0])]
  }

  /** No name twice. */
  ghost predicate Distinct(keys: seq<Object>)
    requires Sound(keys)
  {
    keys == [] || (NameOf(keys[0]) !in Contents(keys[1..]) && Distinct(keys[1..]))
  }

  /** What every operation keeps: sound objects with true hashes, no name twice. */
  ghost predicate Good(h: Hasher, keys: seq<Object>) {
    Authentic(h, keys) && Distinct(keys)
  }

  /** `normalkey_get`: the position of the first object of that name, or the end. */
  function Find(keys: seq<Object>, name: seq<byte>): (i: nat)
    requires forall o | o in keys :: WellFormed(o)
    ensures i <= |keys|
    ensures i < |keys| ==> NameOf(keys[i]) == name
    ensures forall j | 0 <= j < i :: NameOf(keys[j]) != name
  {
    if keys == [] || NameOf(keys[0]) == name then 0 else 1 + Find(keys[1..], name)
  }

  /** Looking a name up in the list is looking it up in the map. */
  lemma {:induction false} FindAgrees(keys: seq<Object>, name: seq<byte>)
    requires Sound(keys)
    ensures var i := Find(keys, name);
            && (name in Contents(keys) <==> i < |keys|)
            && (i < |keys| ==> Contents(keys)[name] == ValueOf(keys[i]))
    decreases |keys|
  {
    hide WellFormed, Hashable, NameOf, ValueOf;
    if keys == [] {
    } else {
      FindAgrees(keys[1..], name);
    }
  }

  // -------------------------------------------------------------------------
  // Changing the list

  /** The object after `normalkey_add` overwrote it with `data`. */
  function Overwritten(h: Hasher, o: Object, data: seq<byte>): (r: Object)
    requires WellFormed(o) && Hashable(o) && 0 < |data| <= MAX_ALLOC
    ensures WellFormed(r) && Hashable(r)
  {
    o.(data := Some(if |data| > o.datasize then data else data + o.data.value[|data|..]),
       datasize := |data|, hash := h(data))
  }

  /** The node `normalkey_add` allocates over whatever `junk` held. */
  function Created(h: Hasher, name: seq<byte>, data: seq<byte>, attr: u32, junk: NameBuf): (o: Object)
    requires |name| <= NAME_LEN && |data| <= MAX_ALLOC
    ensures WellFormed(o) && Hashable(o)
  {
    Object(name + junk[|name|..], |name|, attr, TYPE_GENERIC, |data|, Some(data), h(data))
  }

  datatype Op = Add(name: seq<byte>, data: seq<byte>, attr: u32, junk: NameBuf) | Del(name: seq<byte>)

  /** The arguments `normalkey_add` accepts whatever the list holds. */
  predicate Acceptable(op: Op) {
    op.Add? ==> 0 < |op.data| <= MAX_ALLOC && op.attr % 2 == 0 && |op.name| <= NAME_LEN
  }

  /** `normalkey_add` needs memory: for a new node, or for data longer than the old. */
  predicate Allocates(keys: seq<Object>, name: seq<byte>, data: seq<byte>)
    requires Sound(keys)
  {
    var i := Find(keys, name);
    i == |keys| || |data| > keys[i].datasize
  }

  /** The list after `normalkey_add` or `normalkey_del`; unchanged when they return -1. */
  function Apply(h: Hasher, keys: seq<Object>, op: Op): (r: seq<Object>)
    requires Sound(keys)
    ensures Sound(r)
  {
    var i := Find(keys, op.name);
    match op
    case Add(name, data, attr, junk) =>
      if !Acceptable(op) then keys
      else if i == |keys| then [Created(h, name, data, attr, junk)] + keys
      else if keys[i].attribute != attr then keys
      else keys[i := Overwritten(h, keys[i], data)]
    case Del(_) =>
      if i == |keys| then keys else keys[..i] + keys[i + 1..]
  }

  /** The same on a map. */
  ghost function ApplyMap(h: Hasher, m: map<seq<byte>, Value>, op: Op): (r: map<seq<byte>, Value>) {
    match op
    case Add(name, data, attr, _) =>
      if !Acceptable(op) || (name in m && m[name].attribute != attr) then m
      else m[name := Value(data, attr, if name in m then m[name].kind else TYPE_GENERIC, h(data))]
    case Del(name) => m - {name}
  }

  lemma ConsContents(h: Hasher, o: Object, keys: seq<Object>)
    requires Good(h, keys) && Authentic(h, [o]) && NameOf(o) !in Contents(keys)
    ensures Good(h, [o] + keys) && Contents([o] + keys) == Contents(keys)[NameOf(o) := ValueOf(o)]
  {
  }

  lemma {:induction false} ReplaceContents(h: Hasher, keys: seq<Object>, o: Object)
    requires Good(h, keys) && Authentic(h, [o]) && Find(keys, NameOf(o)) < |keys|
    ensures var r := keys[Find(keys, NameOf(o)) := o];
            Good(h, r) && Contents(r) == Contents(keys)[NameOf(o) := ValueOf(o)]
    decreases |keys|
  {
    hide WellFormed, Hashable, DataOf, NameOf, ValueOf;
    var i, rest := Find(keys, NameOf(o)), keys[1..];
    if i == 0 {
      ConsContents(h, o, rest);
      assert [o] + rest == keys[0 := o];
    } else {
      ReplaceContents(h, rest, o);
      ConsContents(h, keys[0], rest[i - 1 := o]);
      assert [keys[0]] + rest[i - 1 := o] == keys[i := o];
    }
  }

  lemma RemoveOther(m: map<seq<byte>, Value>, name: seq<byte>, v: Value, other: seq<byte>)
    requires name != other
    ensures (m - {other})[name := v] == m[name := v] - {other}
  {
  }

  lemma RemoveNew(m: map<seq<byte>, Value>, name: seq<byte>, v: Value)
    requires name !in m
    ensures m[name := v] - {name} == m
  {
  }

  lemma {:induction false} RemoveContents(h: Hasher, keys: seq<Object>, name: seq<byte>)
    requires Good(h, keys) && Find(keys, name) < |keys|
    ensures var i := Find(keys, name);
            var r := keys[..i] + keys[i + 1..];
            Good(h, r) && Contents(r) == Contents(keys) - {name}
    decreases |keys|
  {
    hide WellFormed, Hashable, DataOf, NameOf, ValueOf;
    var i, rest := Find(keys, name), keys[1..];
    var n, v := NameOf(keys[0]), ValueOf(keys[0]);
    if i == 0 {
      RemoveNew(Contents(rest), n, v);
      assert keys[..0] + keys[1..] == rest;
    } else {
      RemoveContents(h, rest, name);
      RemoveOther(Contents(rest), n, v, name);
      ConsContents(h, keys[0], rest[..i - 1] + rest[i..]);
      assert [keys[0]] + (rest[..i - 1] + rest[i..]) == keys[..i] + keys[i + 1..];
    }
  }

  /** The object an addition leaves under its name. */
  function Stored(h: Hasher, keys: seq<Object>, op: Op): (o: Object)
    requires Sound(keys) && op.Add? && Acceptable(op)
    ensures WellFormed(o) && Hashable(o)
  {
    var i := Find(keys, op.name);
    if i == |keys| then Created(h, op.name, op.data, op.attr, op.junk)
    else Overwritten(h, keys[i], op.data)
  }

  lemma CreatedIs(h: Hasher, name: seq<byte>, data: seq<byte>, attr: u32, junk: NameBuf)
    requires |name| <= NAME_LEN && 0 < |data| <= MAX_ALLOC
    ensures var o := Created(h, name, data, attr, junk);
            NameOf(o) == name && DataOf(o) == data && ValueOf(o) == Value(data, attr, TYPE_GENERIC, h(data))
  {
  }

  lemma OverwrittenIs(h: Hasher, o: Object, data: seq<byte>)
    requires WellFormed(o) && Hashable(o) && 0 < |data| <= MAX_ALLOC
    ensures var r := Overwritten(h, o, data);
            NameOf(r) == NameOf(o) && DataOf(r) == data && ValueOf(r) == Value(data, o.attribute, o.kind, h(data))
  {
  }

  lemma StoredIs(h: Hasher, keys: seq<Object>, op: Op)
    requires Sound(keys) && op.Add? && Acceptable(op)
    ensures var o, i := Stored(h, keys, op), Find(keys, op.name);
            && Authentic(h, [o]) && NameOf(o) == op.name
            && ValueOf(o) == if i == |keys| then Value(op.data, op.attr, TYPE_GENERIC, h(op.data))
                             else Value(op.data, keys[i].attribute, keys[i].kind, h(op.data))
  {
    hide Find, WellFormed, Hashable, DataOf, NameOf;
    var i := Find(keys, op.name);
    if i == |keys| {
      CreatedIs(h, op.name, op.data, op.attr, op.junk);
    } else {
      OverwrittenIs(h, keys[i], op.data);
    }
  }

  /** Each operation keeps the list good and does to its map what it says. */
  lemma OpRefines(h: Hasher, keys: seq<Object>, op: Op)
    requires Good(h, keys)
    ensures var r := Apply(h, keys, op);
            Good(h, r) && Contents(r) == ApplyMap(h, Contents(keys), op)
  {
    hide Find, Contents, WellFormed, Hashable, DataOf, Distinct;
    FindAgrees(keys, op.name);
    match op
    case Add(_, _, _, _) =>
      if Acceptable(op) {
        var o := Stored(h, keys, op);
        StoredIs(h, keys, op);
        if Find(keys, op.name) == |keys| { ConsContents(h, o, keys); } else { ReplaceContents(h, keys, o); }
      }
    case Del(_) =>
      if Find(keys, op.name) < |keys| { RemoveContents(h, keys, op.name); }
      else { assert Contents(keys) - {op.name} == Contents(keys); }
  }

  function ApplyAll(h: Hasher, keys: seq<Object>, ops: seq<Op>): (r: seq<Object>)
    requires Sound(keys)
    decreases |ops|
  {
    if ops == [] then keys else ApplyAll(h, Apply(h, keys, ops[0]), ops[1..])
  }

  ghost function ApplyAllMap(h: Hasher, m: map<seq<byte>, Value>, ops: seq<Op>): (r: map<seq<byte>, Value>)
    decreases |ops|
  {
    if ops == [] then m else ApplyAllMap(h, ApplyMap(h, m, ops[0]), ops[1..])
  }

  /**
   Any run of additions and deletions keeps names unique, buffers large
   enough and hashes true, and agrees with the same run on a map.
   */
  lemma {:induction false} StoreRefinesMap(h: Hasher, keys: seq<Object>, ops: seq<Op>)
    requires Good(h, keys)
    ensures var r := ApplyAll(h, keys, ops);
            Good(h, r) && Contents(r) == ApplyAllMap(h, Contents(keys), ops)
    decreases |ops|
  {
    if ops == [] {
    } else {
      OpRefines(h, keys, ops[0]);
      StoreRefinesMap(h, Apply(h, keys, ops[0]), ops[1..]);
    }
  }

  // -------------------------------------------------------------------------
  // Reloading

  /** The reloaded list is the reversed one, object by object. */
  lemma {:induction false} ReloadedReverses(keys: seq<Object>, onto: seq<Object>, i: nat)
    requires (forall o | o in keys :: WellFormed(o)) && i < |keys| + |onto|
    ensures Reloaded(keys, onto)[i] == if i < |keys| then Trimmed(keys[|keys| - 1 - i]) else onto[i - |keys|]
    decreases |keys|
  {
    if keys == [] {
    } else {
      ReloadedReverses(keys[1..], [Trimmed(keys[0])] + onto, i);
    }
  }

  lemma TrimmedSame(h: Hasher, o: Object)
    requires Authentic(h, [o])
    ensures Authentic(h, [Trimmed(o)]) && NameOf(Trimmed(o)) == NameOf(o) && ValueOf(Trimmed(o)) == ValueOf(o)
  {
    assert o in [o];
    TrimmedData(o);
  }

  lemma {:induction false} ReloadOnto(h: Hasher, keys: seq<Object>, onto: seq<Object>)
    requires Good(h, keys) && Good(h, onto) && Contents(keys).Keys !! Contents(onto).Keys
    ensures var r := Reloaded(keys, onto);
            Good(h, r) && Contents(r) == Contents(onto) + Contents(keys)
    decreases |keys|
  {
    hide WellFormed, Hashable, DataOf, NameOf, ValueOf, Trimmed;
    if keys == [] {
    } else {
      var o, rest := keys[0], keys[1..];
      TrimmedSame(h, o);
      ConsContents(h, Trimmed(o), onto);
      ReloadOnto(h, rest, [Trimmed(o)] + onto);
      assert Contents(onto)[NameOf(o) := ValueOf(o)] + Contents(rest) == Contents(onto) + Contents(keys);
    }
  }

  /** A reloaded list stands for the same map. */
  lemma ReloadKeepsContents(h: Hasher, keys: seq<Object>)
    requires Good(h, keys)
    ensures var r := Reloaded(keys, []);
            Good(h, r) && Contents(r) == Contents(keys)
  {
    ReloadOnto(h, keys, []);
  }

  // -------------------------------------------------------------------------
  // The code

  lemma {:induction false} EncodeAllSnoc(keys: seq<Object>, i: nat)
    requires (forall o | o in keys :: WellFormed(o)) && i < |keys|
    ensures EncodeAll(keys[..i + 1]) == EncodeAll(keys[..i]) + Encode(keys[i])
    ensures |EncodeAll(keys[..i + 1])| <= |EncodeAll(keys)|
    decreases |keys|
  {
    hide Encode;
    if i == 0 {
      assert keys[..1][1..] == [];
    } else {
      EncodeAllSnoc(keys[1..], i - 1);
      assert keys[..i + 1][1..] == keys[1..][..i] && keys[..i][1..] == keys[1..][..i - 1];
    }
  }

  lemma EncodeNone(keys: seq<Object>, b: seq<byte>)
    requires (forall o | o in keys :: WellFormed(o)) && HEADERS <= |b|
    ensures EncodeAll(keys[..0]) == [] && Splice(b, HEADERS, EncodeAll(keys[..0])) == b && ToU32(0) == 0
  {
  }

  lemma SignedRawRecount(h: Hasher, raw: RawHead, n: nat, rest: seq<byte>)
    ensures SignedRaw(h, raw.(keycnt := ToU32(n)), n, rest) == SignedRaw(h, raw, n, rest)
  {
  }

  lemma SpliceTail(b: seq<byte>, s: seq<byte>, k: nat)
    requires |s| <= k <= |b|
    ensures Splice(b, 0, s)[k..] == b[k..]
  {
  }

  /** The file-level state of the normal-key driver. */
  class Store {
    const h: Hasher
    var keys: seq<Object>
    var inited: int
    var raw: RawHead
    var enc: EncHead

    /** 0 down, 1 ready for a block, 2 loaded; only a loaded store has keys. */
    ghost predicate Valid()
      reads this
    {
      0 <= inited <= 2 && (inited < 2 ==> keys == [])
    }

    constructor (h: Hasher)
      ensures Valid() && inited == 0 && this.h == h && enc == EncHead(0, 0)
    {
      this.h, keys, inited, raw, enc := h, [], 0, FreshRaw(), EncHead(0, 0);
    }

    method Init() returns (r: int)
      requires Valid()
      modifies this`inited
      ensures Valid() && r == (if old(inited) != 0 then -1 else 0)
      ensures inited == if old(inited) != 0 then old(inited) else 1
    {
      if inited != 0 {
        return -1;
      }
      inited := 1;
      return 0;
    }

    method Deinit()
      requires Valid()
      modifies this`inited, this`keys
      ensures Valid() && inited == 0 && keys == []
    {
      if inited == 0 {
        return;
      }
      inited := 0;
      while keys != []
        invariant inited == 0
        decreases |keys|
      {
        keys := keys[1..];
      }
    }

    /** `normalkey_get`; the end of the list stands for a null result. */
    method Get(name: Option<seq<byte>>) returns (i: nat)
      requires Sound(keys)
      ensures i == if name.Some? then Find(keys, name.value) else |keys|
    {
      if name.None? {
        return |keys|;
      }
      i := 0;
      while i < |keys|
        invariant 0 <= i <= |keys|
        invariant forall j | 0 <= j < i :: NameOf(keys[j]) != name.value
      {
        assert keys[i] in keys;
        if |name.value| == keys[i].namesize && name.value == keys[i].name[..keys[i].namesize] {
          break;
        }
        i := i + 1;
      }
    }

    /** A larger buffer when the data outgrows `datasize`, then the copy in place. */
    method OverwriteObject(o: Object, data: seq<byte>) returns (r: Object)
      requires WellFormed(o) && Hashable(o) && 0 < |data| <= MAX_ALLOC
      ensures r == Overwritten(h, o, data)
    {
      var buf := if |data| > o.datasize then seq(|data|, _ => 0) else o.data.value;
      buf := data + buf[|data|..];
      assert |data| > o.datasize ==> buf == data;
      r := o.(datasize := |data|, data := Some(buf), hash := h(data));
    }

    /**
     `normalkey_add` of a whole buffer; `junk` is what a new node's name field
     holds, and `memory` whether allocations within the kernel's limit succeed.
     */
    method AddKey(name: Option<seq<byte>>, buffer: Option<seq<byte>>, attr: u32, junk: NameBuf, memory: bool)
      returns (r: int)
      requires Valid() && Sound(keys)
      modifies this`keys
      ensures Valid() && Sound(keys) && r in {0, -1} && (r != 0 ==> keys == old(keys))
      ensures inited != 2 || name.None? || buffer.None? ==> r == -1 && keys == old(keys)
      ensures inited == 2 && name.Some? && buffer.Some? ==>
                var op := Add(name.value, buffer.value, attr, junk);
                var i := Find(old(keys), name.value);
                && keys == (if r == 0 then Apply(h, old(keys), op) else old(keys))
                && (r == 0 <==>
                      && 0 < |op.data| <= MAX_ALLOC && attr % 2 == 0 && |op.name| <= 80
                      && (i < |old(keys)| ==> old(keys)[i].attribute == attr)
                      && (memory || (i < |old(keys)| && |op.data| <= old(keys)[i].datasize)))
    {
      if inited != 2 || name.None? || buffer.None? || |buffer.value| == 0 || attr % 2 == 1 {
        return -1;
      }
      if |name.value| > NAME_LEN {
        return -1;
      }
      hide Find, Overwritten;
      var data := buffer.value;
      var i := Get(name);
      if i < |keys| {
        if attr != keys[i].attribute {
          return -1;
        }
        assert keys[i] in keys;
        if |data| > keys[i].datasize && (!memory || |data| > MAX_ALLOC) {
          return -1;
        }
        var o := OverwriteObject(keys[i], data);
        keys := keys[i := o];
      } else {
        if !memory || |data| > MAX_ALLOC {
          return -1;
        }
        keys := [Created(h, name.value, data, attr, junk)] + keys;
      }
      return 0;
    }

    method DelKey(name: Option<seq<byte>>) returns (r: int)
      requires Valid() && Sound(keys)
      modifies this`keys
      ensures Valid() && Sound(keys)
      ensures r == if inited == 2 && name.Some? && Find(old(keys), name.value) < |old(keys)| then 0 else -1
      ensures keys == if r == 0 then Apply(h, old(keys), Del(name.value)) else old(keys)
    {
      hide Find, NameOf, WellFormed, Hashable;
      if inited != 2 {
        return -1;
      }
      var i := Get(name);
      if i == |keys| {
        return -1;
      }
      keys := keys[..i] + keys[i + 1..];
      return 0;
    }

    /** `normalkey_readfromblock`; `defined` is false when it would leave the block. */
    method ReadFromBlock(block: seq<byte>) returns (r: int, defined: bool)
      requires Valid() && |block| <= MAX_BLOCK
      modifies this`keys, this`inited, this`raw, this`enc
      ensures Valid()
      ensures old(inited) != 1 || |block| <= HEADERS ==>
                r == -1 && defined && keys == old(keys) && inited == old(inited) && raw == old(raw) && enc == old(enc)
      ensures old(inited) == 1 && |block| > HEADERS ==>
                var l := ReadBlock(h, block, old(enc));
                r == 0 && inited == 2 && defined == l.Loaded? && (defined ==> l == Loaded(keys, raw, enc))
      ensures r == 0 && block[..10] == MARK + [0] && h(block[RAW_SIZE..]) != block[76..108] ==>
                defined && keys == [] && raw.errcnt == ToU32(ReadRaw(h, block).errcnt + 1)
      ensures r == 0 && defined ==> forall o | o in keys :: Genuine(h, o)
    {
      hide Tlv.ReadHead, ReadRaw, LoadKeys, Genuine, GenuineLast, ObjectsFrom, Complained, SetFlag, ToU32;
      r, defined := 0, true;
      if inited != 1 || |block| <= HEADERS {
        return -1, true;
      }
      ReadBlockIs(h, block, enc);
      assert MARK + [0] == [0x41, 0x4D, 0x4C, 0x4E, 0x4F, 0x52, 0x4D, 0x41, 0x4C, 0];
      ReadRawIs(h, block);
      inited := 2;
      raw := FreshRaw();
      enc := enc.(flashsize := |block|);
      if block[..10] != MARK + [0] {
        return;
      }
      raw := ReadRaw(h, block);
      if raw.hash != block[76..108] {
        raw := raw.(errcnt := ToU32(raw.errcnt + 1));
        return;
      }
      var head := ReadHeadAt(block[RAW_SIZE..], HEAD_SIZE, enc);
      if head.HeadOverrun? {
        return 0, false;
      }
      enc := head.head;
      if head.HeadRejected? {
        raw := raw.(flags := SetFlag(raw.flags, ERR_ENCHDFAIL));
        return;
      }
      if |block| < ToU32(enc.blocksize + HEADERS) {
        raw := raw.(flags := SetFlag(raw.flags, ERR_DATASZ));
        return;
      }
      defined := LoadObjects(block[HEADERS..]);
    }

    /** Its object loop. */
    method LoadObjects(m: seq<byte>) returns (defined: bool)
      requires inited == 2 && keys == []
      modifies this`keys, this`raw
      ensures var l := LoadKeys(h, m, enc.blocksize, 0, [], old(raw).flags);
              defined == l.KeysRead? && (defined ==> keys == l.keys && raw == old(raw).(flags := l.flags))
      ensures var w := ObjectsFrom(m, enc.blocksize, 0);
              && (defined <==> w.stop != Outside)
              && (defined ==> keys == GenuineLast(h, w.objects) && raw.flags == Complained(h, w, old(raw).flags))
    {
      hide Tlv.ReadObject, Hashable, DataOf, SetFlag, ToS32, ObjectsFrom, GenuineLast, Complained;
      LoadKeysIs(h, m, enc.blocksize, 0, [], raw.flags);
      assert forall s: seq<Object> :: s + [] == s;
      var idx := 0;
      while idx < enc.blocksize
        invariant idx <= enc.blocksize && raw == old(raw).(flags := raw.flags)
        invariant LoadKeys(h, m, enc.blocksize, idx, keys, raw.flags)
                  == LoadKeys(h, m, enc.blocksize, 0, [], old(raw).flags)
        decreases enc.blocksize - idx
      {
        if idx > |m| {
          return false;
        }
        var p := ReadObjectAt(m[idx..], ToS32(enc.blocksize - idx));
        if p.Overrun? {
          return false;
        }
        if p.Rejected? {
          raw := raw.(flags := SetFlag(raw.flags, ERR_KEYRDFAIL));
          break;
        }
        if !Hashable(p.value) {
          return false;
        }
        idx := idx + p.used;
        if h(DataOf(p.value)) != p.value.hash {
          raw := raw.(flags := SetFlag(raw.flags, ERR_KEYCHKFAIL));
        } else {
          keys := [p.value] + keys;
        }
      }
      return true;
    }

    method WriteToBlock(block: array<byte>) returns (r: int)
      requires Valid() && Sound(keys) && block.Length <= MAX_BLOCK
      modifies this`raw, this`enc, block
      ensures Valid()
      ensures r == if inited == 2 && Fits(keys, block.Length) then 0 else -1
      ensures r == 0 ==> block[..] == WriteBlock(h, keys, old(raw), old(block[..]))
      ensures r == 0 ==> raw == SignedRaw(h, old(raw), |keys|, block[RAW_SIZE..])
    {
      hide Encode, EncodeAll, EncodeHead, RawBytes, HeadBytes, Splice, SameOutside, SignedRaw, WellFormed, Hashable,
        ToU32;
      if inited != 2 || block.Length <= HEADERS {
        return -1;
      }
      ghost var b := block[..];
      enc := enc.(flashsize := block.Length);
      var idx := WriteObjects(block);
      if idx < 0 {
        return -1;
      }
      enc := enc.(blocksize := idx);
      var n := WriteHead(enc, block, RAW_SIZE, HEAD_SIZE);
      assert block[..] == FilledBlock(keys, b);
      assert block[..][RAW_SIZE..] == block[RAW_SIZE..];
      SignedRawRecount(h, old(raw), |keys|, block[RAW_SIZE..]);
      SignBlock(block, |keys|);
      return 0;
    }

    /** The hashes over the finished block, and the raw head copied in front of it. */
    method SignBlock(block: array<byte>, ghost count: nat)
      requires block.Length > HEADERS && raw.keycnt == ToU32(count)
      modifies this`raw, block
      ensures raw == SignedRaw(h, old(raw), count, old(block[RAW_SIZE..]))
      ensures block[..] == Splice(old(block[..]), 0, RawBytes(raw))
      ensures block[RAW_SIZE..] == old(block[RAW_SIZE..])
    {
      hide RawBytes, HeadBytes, Splice;
      ghost var filled := block[..];
      raw := raw.(wrtcnt := ToU32(raw.wrtcnt + 1));
      raw := raw.(headhash := h(HeadBytes(raw)));
      raw := raw.(hash := h(block[RAW_SIZE..]));
      var bytes := RawBytes(raw);
      CopyPadded(block, 0, |bytes|, bytes);
      assert bytes + Zeros(0) == bytes;
      SpliceTail(filled, bytes, RAW_SIZE);
      assert block[..][RAW_SIZE..] == filled[RAW_SIZE..];
    }

    /** Its object loop; negative when an object finds no room. */
    method WriteObjects(block: array<byte>) returns (idx: int)
      requires Sound(keys) && HEADERS < block.Length <= MAX_BLOCK
      modifies this`raw, block
      ensures idx == if Fits(keys, block.Length) then |EncodeAll(keys)| else -1
      ensures idx >= 0 ==> block[..] == Splice(old(block[..]), HEADERS, EncodeAll(keys))
                           && raw == old(raw).(keycnt := ToU32(|keys|))
    {
      hide Encode, EncodeAll, WellFormed, Hashable, Splice, SameOutside, ToU32;
      idx := 0;
      var i := 0;
      raw := raw.(keycnt := 0);
      ghost var b := block[..];
      EncodeNone(keys, b);
      while i < |keys|
        invariant 0 <= i <= |keys| && idx == |EncodeAll(keys[..i])|
        invariant HEADERS + idx <= block.Length
        invariant block[..] == Splice(b, HEADERS, EncodeAll(keys[..i]))
        invariant raw == old(raw).(keycnt := ToU32(i))
      {
        EncodeAllSnoc(keys, i);
        assert keys[i] in keys;
        var n := WriteObject(keys[i], block, HEADERS + idx, block.Length - HEADERS - idx);
        if n == 0 {
          return -1;
        }
        SpliceNext(b, HEADERS, EncodeAll(keys[..i]), Encode(keys[i]));
        idx := idx + n;
        ToU32Next(i);
        i := i + 1;
        raw := raw.(keycnt := ToU32(raw.keycnt + 1));
      }
      assert keys[..i] == keys;
    }
  }
}
