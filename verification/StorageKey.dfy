/**
 The normal-key interface on top of the key store and the eMMC key area, and
 what a key write means for the boots that follow it.
 */
module StorageKey {
  import opened Options
  import opened Bytes
  import opened Tlv
  import opened NormalKey
  import opened KeyStore
  import opened EmmcKey
  import opened EmmcRuns

  /** A completed boot of disk `d` and `_amlkey_init_normal` load a store that stands for `m`. */
  ghost predicate BootLoads(h: Hasher, d: Disk, m: map<seq<byte>, Value>) {
    var l := ReadBlock(h, Boot(d, COPY_WRITES).0[0].area, EncHead(0, 0));
    l.Loaded? && Good(h, l.keys) && Contents(l.keys) == m
  }

  /** The image `_amlkey_write_normal` hands to the eMMC driver. */
  ghost function SavedImage(h: Hasher, keys: seq<Object>, raw: RawHead, block: Image): (img: Image)
    requires Sound(keys) && Fits(keys, AREA_SIZE)
  {
    WriteBlock(h, keys, raw, block)
  }

  /** Booting from a saved image loads exactly what was saved. */
  lemma SavedImageLoads(h: Hasher, keys: seq<Object>, raw: RawHead, block: Image, d: Disk)
    requires Good(h, keys) && Fits(keys, AREA_SIZE)
    requires Intact(d) && View(d) == SavedImage(h, keys, raw, block)
    ensures BootLoads(h, d, Contents(keys))
  {
    hide ReadBlock, WriteBlock, EncodeAll, Reloaded, Contents, Distinct, Boot, View, SignedRaw;
    BootServesView(d, COPY_WRITES);
    BlockRoundTrip(h, keys, raw, block, EncHead(0, 0));
    ReloadKeepsContents(h, keys);
  }

  /** What a boot loads depends on the disk only through the image it serves. */
  lemma SameViewSameLoad(h: Hasher, d: Disk, d': Disk, m: map<seq<byte>, Value>)
    requires Intact(d) && Intact(d') && View(d) == View(d') && BootLoads(h, d, m)
    ensures BootLoads(h, d', m)
  {
    hide ReadBlock, Contents, Distinct, Boot, View;
    BootServesView(d, COPY_WRITES);
    BootServesView(d', COPY_WRITES);
  }

  /**
   A key write that succeeds is what the next boot loads: the written bytes
   under that name, every other key as it was.
   */
  lemma WritePersists(h: Hasher, d: Disk, ram: Ram, keys: seq<Object>, raw: RawHead, block: Image, op: Op, n: nat)
    requires ram.Valid() && Recovered(d) && Good(h, keys) && op.Add? && Fits(Apply(h, keys, op), AREA_SIZE)
    requires n >= 2 * COPY_WRITES
    ensures var img := SavedImage(h, Apply(h, keys, op), raw, block);
            BootLoads(h, KeyWrite(d, ram, img, AREA_SIZE, n).0, ApplyMap(h, Contents(keys), op))
  {
    hide WriteBlock, EncodeAll, Contents, Distinct, Boot, View, KeyWrite, Apply, ApplyMap;
    var keys' := Apply(h, keys, op);
    OpRefines(h, keys, op);
    var img := SavedImage(h, keys', raw, block);
    CompletedWrite(d, ram, img, n);
    SavedImageLoads(h, keys', raw, block, KeyWrite(d, ram, img, AREA_SIZE, n).0);
  }

  /**
   The same for a block of any size that the card reads in whole: the image
   carries whatever memory follows the block. Its copies count as valid exactly
   when that memory is zero, but a completed write is what the next boot loads
   either way.
   */
  lemma AnyBlockPersists(h: Hasher, d: Disk, ram: Ram, keys: seq<Object>, raw: RawHead, block: seq<byte>,
                         beyond: seq<byte>, op: Op, n: nat)
    requires ram.Valid() && Good(h, keys) && op.Add? && Fits(Apply(h, keys, op), |block|) && n >= 2 * COPY_WRITES
    requires |block| % BLOCK_SIZE == 0 && |block| + |beyond| == AREA_SIZE
    ensures var img := WriteBlock(h, Apply(h, keys, op), raw, block) + beyond;
            var d' := KeyWrite(d, ram, img, |block|, n).0;
            var l := ReadBlock(h, Boot(d', COPY_WRITES).0[0].area[..|block|], EncHead(0, 0));
            && l.Loaded? && Good(h, l.keys) && Contents(l.keys) == ApplyMap(h, Contents(keys), op)
            && (ValidCopy(d'[0]) <==> forall i | |block| / 4 <= i < AREA_SIZE / 4 :: U32At(img, 4 * i) == 0)
  {
    hide ReadBlock, WriteBlock, EncodeAll, Reloaded, Contents, Distinct, Boot, SignedRaw, KeyWrite, Apply, ApplyMap,
      ValidCopy;
    var keys' := Apply(h, keys, op);
    OpRefines(h, keys, op);
    var b := WriteBlock(h, keys', raw, block);
    var img: Image := b + beyond;
    ShortWriteStays(d, ram, img, |block|, n, COPY_WRITES);
    assert img[..|block|] == b;
    BlockRoundTrip(h, keys', raw, block, EncHead(0, 0));
    ReloadKeepsContents(h, keys');
  }

  /**
   A key write interrupted at any block leaves the next boot with the map from
   before the write or the map after it, provided no half-written image
   matches the checksum already on the card.
   */
  lemma InterruptedWriteIsAtomic(h: Hasher, d: Disk, ram: Ram, keys: seq<Object>, raw: RawHead, block: Image,
                                 op: Op, n: nat)
    requires ram.Valid() && Recovered(d) && Good(h, keys) && op.Add? && Fits(Apply(h, keys, op), AREA_SIZE)
    requires BootLoads(h, d, Contents(keys))
    requires CollisionFree(d[0], SavedImage(h, Apply(h, keys, op), raw, block))
    ensures var d' := KeyWrite(d, ram, SavedImage(h, Apply(h, keys, op), raw, block), AREA_SIZE, n).0;
            BootLoads(h, d', Contents(keys)) || BootLoads(h, d', ApplyMap(h, Contents(keys), op))
  {
    hide WriteBlock, EncodeAll, Contents, Distinct, Boot, View, KeyWrite, Apply, ApplyMap, BootLoads, CollisionFree;
    var keys' := Apply(h, keys, op);
    OpRefines(h, keys, op);
    var img := SavedImage(h, keys', raw, block);
    var d' := KeyWrite(d, ram, img, AREA_SIZE, n).0;
    WriteView(d, ram, img, n);
    CrashAtomicity(d, ram, img);
    assert View(KeyWrite(d, ram, img, AREA_SIZE, n).0) in {View(d), img};
    if View(d') == img {
      SavedImageLoads(h, keys', raw, block, d');
    } else {
      SameViewSameLoad(h, d, d', Contents(keys));
    }
  }

  // -------------------------------------------------------------------------
  // The code

  /** The globals of the storage layer; the block is 256 KiB unless configured smaller. */
  class NormalKeys {
    const card: Card
    const store: Store
    const block: array<byte>
    var registered: bool

    ghost predicate Valid()
      reads this, card, store
    {
      card.Valid() && store.Valid() && block.Length <= AREA_SIZE
    }

    constructor (card: Card, store: Store, block: array<byte>)
      requires card.Valid() && store.Valid() && block.Length <= AREA_SIZE
      ensures Valid() && this.card == card && this.store == store && this.block == block && registered
    {
      this.card, this.store, this.block, registered := card, store, block, true;
    }

    /** `_amlkey_init_normal`; `defined` as for the block reader. */
    method Init() returns (r: int, defined: bool)
      requires Valid()
      modifies store, block
      ensures Valid()
      ensures r == if registered && old(store.inited) == 0 && block.Length > HEADERS then 0 else -1
      ensures r == 0 ==>
                var whole := block.Length / BLOCK_SIZE * BLOCK_SIZE;
                var l := ReadBlock(store.h, block[..], old(store.enc));
                && block[..] == card.disk[0].area[..whole] + old(block[whole..]) && store.inited == 2
                && defined == l.Loaded? && (defined ==> l == Loaded(store.keys, store.raw, store.enc))
      ensures r != 0 ==> store.keys == old(store.keys) && store.inited == old(store.inited)
    {
      hide ReadBlock;
      defined := true;
      if !registered {
        return -1, true;
      }
      r := store.Init();
      if r != 0 {
        return -1, true;
      }
      var buffer := card.Read(block[..]);
      CopyPadded(block, 0, |buffer|, buffer);
      assert block[..] == buffer;
      r, defined := store.ReadFromBlock(block[..]);
      if r != 0 {
        store.Deinit();
      }
    }

    /** `_amlkey_read_normal` of a key into a buffer of `len` bytes. */
    method Read(name: Option<seq<byte>>, len: u32) returns (data: seq<byte>)
      requires Valid() && Sound(store.keys)
      ensures var m := Contents(store.keys);
              data == if name.Some? && name.value in m && |m[name.value].data| <= len then m[name.value].data else []
    {
      hide Find, Contents;
      if name.Some? { FindAgrees(store.keys, name.value); }
      var i := store.Get(name);
      data := [];
      if i < |store.keys| {
        assert store.keys[i] in store.keys;
        if len >= store.keys[i].datasize {
          data := DataOf(store.keys[i]);
        }
      }
    }

    /**
     `_amlkey_write_normal` of a whole buffer. The card always takes 256 KiB,
     so behind a smaller block it takes `beyond`, whatever memory follows.
     */
    method Write(name: Option<seq<byte>>, buffer: Option<seq<byte>>, attr: u32, junk: NameBuf, memory: bool,
                 beyond: seq<byte>)
      returns (n: nat)
      requires Valid() && Sound(store.keys) && block.Length + |beyond| == AREA_SIZE
      modifies card, store, block
      ensures Valid() && Sound(store.keys) && store.inited == old(store.inited)
      ensures var took := Accepted(name, buffer, attr, old(store.keys), memory) && old(store.inited) == 2 && registered;
              && store.keys == (if took then Apply(store.h, old(store.keys), Add(name.value, buffer.value, attr, junk))
                                else old(store.keys))
              && (!took ==> store.raw == old(store.raw) && block[..] == old(block[..]))
              && if took && Fits(store.keys, block.Length) then
                   && (card.disk, card.Memory())
                      == KeyWrite(old(card.disk), old(card.Memory()),
                                  WriteBlock(store.h, store.keys, old(store.raw), old(block[..])) + beyond,
                                  block.Length, old(card.budget))
                   && n == if old(card.budget) >= 2 * COPY_WRITES then |buffer.value| else 0
                 else
                   && n == 0 && card.disk == old(card.disk) && card.Memory() == old(card.Memory())
                   && card.budget == old(card.budget)
    {
      hide Find, Fits, KeyStore.Apply, WriteBlock, KeyWrite, WellFormed, Hashable;
      n := 0;
      if attr % 2 == 1 || !registered {
        return;
      }
      var r := store.AddKey(name, buffer, attr, junk, memory);
      if r != 0 {
        return;
      }
      r := store.WriteToBlock(block);
      if r != 0 {
        return;
      }
      var ok := card.Write(block[..] + beyond, block.Length);
      if ok {
        n := |buffer.value|;
      }
    }
  }

  /** The key is written to storage unless an argument, the stored attribute or a lack of memory forbids it. */
  predicate Accepted(name: Option<seq<byte>>, buffer: Option<seq<byte>>, attr: u32, keys: seq<Object>, memory: bool)
    requires Sound(keys)
  {
    && name.Some? && buffer.Some? && 0 < |buffer.value| <= MAX_ALLOC && attr % 2 == 0 && |name.value| <= NAME_LEN
    && (Find(keys, name.value) < |keys| ==> keys[Find(keys, name.value)].attribute == attr)
    && (memory || !Allocates(keys, name.value, buffer.value))
  }
}
