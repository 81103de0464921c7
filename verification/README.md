# Amlogic A311D drivers: a Dafny model

This project models the state-keeping parts of the A311D device support and
proves what they promise, over all inputs and all runs. Bytes, words and
wrap-around are explicit; hardware, clocks and SHA-256 are parameters.

**The persistent key store.** `EmmcKey` is the two-copy key area of the eMMC
reserve partition: two 256 KiB areas, each with an info record, written one
512-byte block at a time, so that an interruption leaves a prefix of the block
writes. `Tlv`, `NormalKey` and `KeyStore` are the tag-length-value format, the
hashed block and the key list; `StorageKey` puts the list on top of the card.
`EmmcRuns` and `KeyRuns` state what whole runs of writes, interruptions and
boots guarantee, and that the code takes the steps of those runs. Main results: `EmmcRuns.CrashAtomicity`,
`EmmcRuns.RunsAreAtomic`, `EmmcRuns.StampOrder`, `NormalKey.BlockRoundTrip`,
`NormalKey.ReadBlockIs`, `KeyStore.StoreRefinesMap`, `StorageKey.WritePersists` and
`KeyRuns.StackIsCrashSafeMap`.

**The GE2D work-queue engine.** `Ge2dConfig` holds the configuration groups,
the setters and the register programming loop. `Ge2dQueue` is the submitter and
monitor protocol as a state machine whose steps interleave freely, with one
thread per context. `Ge2dOrder` and `Ge2dDirty` prove its invariants,
`Ge2dRuns` the results over all runs: `JobsRunUnderTheirConfig`,
`ExactlyOnceInOrder`, `BlockingReturn`, `NoLostWakeup`, `VisitedBeforeSleep`
and `BoundedWaiting`. `Ge2dEngine` has the driver's functions as they update
their lists in place, from setters to the end of a blocking submission, tied to
the machine's steps by a ghost trace.

**The canvas pool.** `Canvas` says what allocation, packing, rollback and
tables compute; `CanvasPool` is the pool with its bitmap and loops. Main
results: `Canvas.SearchComplete`, `Canvas.SetIs` and `Canvas.TableRestores`.

**Scaler and layers.** `Scaler` is the fixed-point set-up of `ge2d_set_cmd`
(`StepExact`, `StepVanishes`, `DividerExact`); `Layers` is the id search and
the z-ordered layer set of a display, `LayerRuns` several displays over one id
pool.

Properties that do not hold without a condition are stated with the exact one,
and a concrete case shows that it is needed: `EmmcRuns.MixtureServed`,
`Tlv.LongNameOverruns`, `Canvas.RunMissed`, `Scaler.StepVanishesAt512`,
`Scaler.DividerWrapsAt384`, `Layers.SearchNeverEnds` and `LayerRuns.ZeroTwice`.

Where the code departs from its own comments or names, the model follows the
code: `update_old_key` settles two valid copies by rewriting one with the
contents of area 0, so the newer copy does not win; `key_stamp` is not advanced
after a write, so several writes between boots share a stamp; a reloaded key
list comes back in reverse order; freeing a table of runs shorter than four
canvases also frees canvas 0 and counts it as freed each time; the start of the run search never advances; and
both a layer that fails to initialise and a display's client layer release id 0
when they are discarded.

## Model

| member | source | states |
|---|---|---|
| `EmmcRuns.CrashAtomicity` | a311d/soc/amlogic/mmc/emmc_key.c:84-325 | from a recovered card, every interruption of a key write leaves the next boot with the whole old or the whole new image if and only if no half-replaced area 0 has the checksum that copy 0's record already holds |
| `EmmcRuns.MixtureServed` | a311d/soc/amlogic/mmc/emmc_key.c:84-325 | the condition is needed: a concrete write, interrupted one block into area 0, after which boot serves an image that is neither the old nor the new one |
| `EmmcRuns.RunsAreAtomic` | a311d/soc/amlogic/mmc/emmc_key.c:187-325 | over every run of writes, interruptions and boots from a blank card, the key area behaves as one atomic image at every step that meets no checksum collision, and whenever the driver is up area 0, which reads come from, is that image |
| `EmmcRuns.StampOrder` | a311d/soc/amlogic/mmc/emmc_key.c:131-153 | over every run from a blank card whose stamps stay below 2^31, however long, copy 1's stamp never falls behind copy 0's, so the second branch of `update_old_key` is never taken |
| `EmmcRuns.RecoveryConverges` | a311d/soc/amlogic/mmc/emmc_key.c:187-299 | with exactly one valid copy, boot makes both copies and both records equal to it, and the next boot issues no block write |
| `EmmcRuns.RecoveryKeepsGoodCopy` | a311d/soc/amlogic/mmc/emmc_key.c:187-299 | no boot, interrupted at any block, modifies the only valid copy; with copy 0 valid it never modifies copy 0 |
| `EmmcRuns.TwoCopiesStay` | a311d/soc/amlogic/mmc/emmc_key.c:131-153 | with two valid copies, every boot, wherever it is interrupted, leaves both areas and both records as they are if and only if copy 1 is ahead, the stamps agree, or the areas are equal |
| `EmmcRuns.TwoCopiesBoot` | a311d/soc/amlogic/mmc/emmc_key.c:131-153 | with two valid copies, what an interrupted or completed boot leaves of each: copy 0 as it is, and copy 1 as it is unless copy 0 is ahead, when area 0 replaces its area under its own record |
| `EmmcRuns.OneCopyBoot` | a311d/soc/amlogic/mmc/emmc_key.c:187-299 | with one valid copy, what an interrupted or completed boot leaves of each: the valid one as it is, its blocks in the other one as far as they came, the record last; with none the card stays |
| `EmmcRuns.BootMemory` | a311d/soc/amlogic/mmc/emmc_key.c:131-153 | what a boot leaves in memory: both records and the larger stamp as found, except that settling two valid copies leaves the record of the one behind twice, and its stamp when it completes |
| `EmmcRuns.StampAfterIs` | a311d/soc/amlogic/mmc/emmc_key.c:21 | a stamp counts as later exactly when it is ahead by 1 to 2^31 in 32-bit arithmetic |
| `EmmcRuns.BootServesView` | a311d/soc/amlogic/mmc/emmc_key.c:266-299 | a completed boot leaves a recovered card whose area 0 is the image the card stood for before |
| `EmmcRuns.CompletedWrite` | a311d/soc/amlogic/mmc/emmc_key.c:303-325 | a write that runs to the end leaves two equal valid copies of the new image |
| `EmmcRuns.WriteView` | a311d/soc/amlogic/mmc/emmc_key.c:303-325 | which image a boot would serve after any number of the block writes of a key write, and that some copy stays good throughout |
| `EmmcRuns.WriteRecords` | a311d/soc/amlogic/mmc/emmc_key.c:303-325 | the record of each copy and of memory after any number of the block writes: the old one until the copy's last block, then the sum, the next stamp and the mark |
| `EmmcRuns.ShortWriteValid` | a311d/soc/amlogic/mmc/emmc_key.c:303-325 | a write told of a shorter length leaves a copy that boot accepts if and only if every word past that length is zero |
| `EmmcRuns.ShortWriteSame` | a311d/soc/amlogic/mmc/emmc_key.c:303-325 | with zero words past the length, a short write is the write of the whole image at every interruption, so the results above hold for it |
| `EmmcRuns.ShortWriteStays` | a311d/soc/amlogic/mmc/emmc_key.c:303-325 | a write of any length that completes leaves two equal copies of the image that no boot changes, valid exactly when the words past the length are zero |
| `EmmcRuns.ShortWriteView` | a311d/soc/amlogic/mmc/emmc_key.c:303-325 | which image a boot would serve after any number of the block writes of a short write with non-zero words past its length |
| `EmmcRuns.ShortWriteAtomicity` | a311d/soc/amlogic/mmc/emmc_key.c:303-325 | every interruption of such a write shows the old or the new image if and only if area 0 is never a mixture of the two |
| `EmmcRuns.WordSumMonotone` | a311d/soc/amlogic/mmc/emmc_key.c:68-82 | a longer checksum is at least the shorter one, and equal exactly when the words between are zero |
| `EmmcRuns.BootStep` | a311d/soc/amlogic/mmc/emmc_key.c:266-299 | a boot, interrupted anywhere, keeps some copy good and, without a collision, keeps the image |
| `EmmcRuns.StepInv` | a311d/soc/amlogic/mmc/emmc_key.c:266-325 | every event keeps the invariant and, without a collision, is a step of one atomic image |
| `EmmcRuns.RunInv` | a311d/soc/amlogic/mmc/emmc_key.c:266-325 | the invariant holds at every moment of every run from a blank card |
| `EmmcRuns.StampStep` | a311d/soc/amlogic/mmc/emmc_key.c:232-325 | every event on a card whose stamps are below 2^31 keeps copy 1's stamp, and the next one to be written, at or above copy 0's |
| `EmmcRuns.StampRun` | a311d/soc/amlogic/mmc/emmc_key.c:232-325 | the same over every such run |
| `EmmcKey.Card.WriteOneKey` | a311d/soc/amlogic/mmc/emmc_key.c:84-129 | the chunked transfer and the info record land on the card as a prefix of 513 block writes: area torn at the block reached, record only last |
| `EmmcKey.Card.WriteChunk` | a311d/soc/amlogic/mmc/emmc_key.c:100-115 | one 256-block transfer of which only the blocks still granted reach the area |
| `EmmcKey.Card.WriteInfo` | a311d/soc/amlogic/mmc/emmc_key.c:116-129 | the record's block lands whole or not at all |
| `EmmcKey.Card.CalcChecksum` | a311d/soc/amlogic/mmc/emmc_key.c:68-82 | the loop computes the sum of the 32-bit words; its 64-bit accumulator never wraps for an area |
| `EmmcKey.WordSum` | a311d/soc/amlogic/mmc/emmc_key.c:68-82 | the sum of n words is at most n times the largest word |
| `EmmcKey.TornExtends` | a311d/soc/amlogic/mmc/emmc_key.c:100-115 | writing further blocks behind the first k gives the area torn further on |
| `EmmcKey.Card.Write` | a311d/soc/amlogic/mmc/emmc_key.c:303-325 | copy 1 first, then copy 0, each with a fresh record; the card after any number of block writes; success exactly when all of them land |
| `EmmcKey.Card.UpdateKeyInfo` | a311d/soc/amlogic/mmc/emmc_key.c:232-264 | which copies are valid by checksum and magic, both records in memory, area 0 left in the buffer, the larger stamp taken |
| `EmmcKey.Card.Init` | a311d/soc/amlogic/mmc/emmc_key.c:266-299 | boot recovery: repairs the invalid copy, or settles the stamps when both are valid, as the recovery function says for any interruption; a valid copy 0 and the only valid copy stay, and so does the whole card when both copies are valid and copy 1 is ahead or level, or none is valid; and how many block writes it issues |
| `EmmcKey.Card.UpdateOldKey` | a311d/soc/amlogic/mmc/emmc_key.c:131-153 | which copy is rewritten and with what, by wrapped signed stamp comparison; copy 0 stays, and the whole card does when copy 1 is ahead or level; equal stamps issue no write |
| `EmmcKey.Card.Read` | a311d/soc/amlogic/mmc/emmc_key.c:401-433 | whole blocks of area 0, in up to two chunks, into the caller's buffer; the rest of the buffer untouched |
| `Tlv.ObjectRoundTrip` | a311d/soc/amlogic/unifykey/normal_key.c:220-285 | an object read where it was written comes back with the same name, data, attribute, type and hash and consumes exactly its bytes, whatever follows, padding and skipped empty names included |
| `Tlv.HeadRoundTrip` | a311d/soc/amlogic/unifykey/normal_key.c:181-218 | a block head read where it was written comes back |
| `Tlv.ObjectLayout` | a311d/soc/amlogic/unifykey/normal_key.c:330-373 | the place, tag, length and content of every field of an encoded object, name and data only when there are any, zeros behind what is padded |
| `Tlv.HeadLayout` | a311d/soc/amlogic/unifykey/normal_key.c:307-328 | the same for the block head |
| `Tlv.ReadObject` | a311d/soc/amlogic/unifykey/normal_key.c:220-285 | a successful read consumes at least 8 bytes and never more than the length given, for every content |
| `Tlv.ReadObjectIs` | a311d/soc/amlogic/unifykey/normal_key.c:220-285 | for every content: unless reading leaves the memory, an object is refused if and only if its own tag or length is wrong, its fields do not follow one another to the end, a hash is not 32 bytes or the data size in force is more than any allocation; otherwise the last field of each tag gives the sizes, type and attribute and unknown tags are passed over |
| `Tlv.FieldsTaken` | a311d/soc/amlogic/unifykey/normal_key.c:239-285 | the same for the field loop from any point and any object on |
| `Tlv.FieldTaken` | a311d/soc/amlogic/unifykey/normal_key.c:245-280 | what one field gives and when it is refused |
| `Tlv.ReadHeadIs` | a311d/soc/amlogic/unifykey/normal_key.c:181-218 | for every content: the head is refused if and only if its tag, its length or the sequence of its fields is wrong, and holds the last value of each field it met either way |
| `Tlv.HeadFieldsTaken` | a311d/soc/amlogic/unifykey/normal_key.c:192-215 | the same for its field loop |
| `Tlv.ReadHead` | a311d/soc/amlogic/unifykey/normal_key.c:181-218 | likewise for the head, and a rejected head keeps the fields it came to |
| `Tlv.ReadFields` | a311d/soc/amlogic/unifykey/normal_key.c:239-285 | the field loop ends for every content and consumes exactly the object's declared size |
| `Tlv.ReadTl` | a311d/soc/amlogic/unifykey/normal_key.c:165-179 | a tag and length are accepted only when the whole field lies inside the length given |
| `Tlv.TakeField` | a311d/soc/amlogic/unifykey/normal_key.c:245-280 | each field advances by its own declared length; a data size no allocation can hold is refused |
| `Tlv.StaysInside` | a311d/soc/amlogic/unifykey/normal_key.c:220-285 | for every content, an object is read inside its memory and its name buffer if and only if every field it is read through stays there: the bytes taken from it, by its tag and the sizes read before, lie in the memory, and a name has at most 80 |
| `Tlv.FieldsStay` | a311d/soc/amlogic/unifykey/normal_key.c:239-285 | the same for the field loop from any point on |
| `Tlv.TameStays` | a311d/soc/amlogic/unifykey/normal_key.c:245-280 | a field at least as long as what is taken from it stays |
| `Tlv.LongNameOverruns` | a311d/soc/amlogic/unifykey/normal_key.c:245-252 | the condition matters: an object with a name size of 81 is read past its name buffer |
| `Tlv.ReadObjectAt` | a311d/soc/amlogic/unifykey/normal_key.c:220-285 | the cursor loop computes the reader function |
| `Tlv.ReadHeadAt` | a311d/soc/amlogic/unifykey/normal_key.c:181-218 | the cursor loop computes the reader function |
| `Tlv.WriteUint32` | a311d/soc/amlogic/unifykey/normal_key.c:134-146 | a 12-byte field in place when it fits, nothing otherwise |
| `Tlv.WriteBuf` | a311d/soc/amlogic/unifykey/normal_key.c:148-163 | a zero-padded buffer field in place when it fits, nothing otherwise |
| `Tlv.WriteObject` | a311d/soc/amlogic/unifykey/normal_key.c:330-373 | the object's encoding in place exactly when it fits; bytes outside the room given are untouched either way |
| `Tlv.WriteHead` | a311d/soc/amlogic/unifykey/normal_key.c:307-328 | the head's encoding in place exactly when it fits; nothing outside touched |
| `Tlv.Padded` | a311d/soc/amlogic/unifykey/normal_key.c:148-163 | the padded length is the next multiple of four |
| `NormalKey.BlockRoundTrip` | a311d/soc/amlogic/unifykey/normal_key.c:539-699 | a block this code wrote loads without an error flag as the same objects in reverse order, with the same key count, flags and error count, one more write and one more initialisation |
| `NormalKey.KeysRoundTrip` | a311d/soc/amlogic/unifykey/normal_key.c:614-644 | the object loop over a written block rebuilds the list, each object passing its hash |
| `NormalKey.RawRoundTrip` | a311d/soc/amlogic/unifykey/normal_key.c:572-596 | every field of the raw head can be read where it was stored, behind the mark and zeros for version and encryption |
| `NormalKey.BlockLayout` | a311d/soc/amlogic/unifykey/normal_key.c:650-699 | a written block holds the signed raw head, the head and the objects, each at its place |
| `NormalKey.BlockRest` | a311d/soc/amlogic/unifykey/normal_key.c:650-699 | every other byte of a written block is the old one |
| `NormalKey.ReadBlockIs` | a311d/soc/amlogic/unifykey/normal_key.c:562-644 | for every content of a block: without the mark no key and fresh counts; with the mark and a wrong data hash no key and one more error; and every key that is ever loaded carries the hash of its data |
| `NormalKey.ReadBlockTakes` | a311d/soc/amlogic/unifykey/normal_key.c:598-644 | for every content with mark and data hash right: which flag a bad head, a size beyond the block, a forged object or an unreadable record raises, and that the keys are exactly the genuine objects met, last first |
| `NormalKey.LoadKeysIs` | a311d/soc/amlogic/unifykey/normal_key.c:614-644 | for every content of the data: the loop keeps exactly the objects that carry the hash of their data, passes over the others, raises the check flag exactly for a forged object and the read flag exactly for an unreadable record |
| `NormalKey.GenuineLastIs` | a311d/soc/amlogic/unifykey/normal_key.c:633-642 | an object is kept if and only if it was met and is genuine, and one is forged if and only if some object met is not |
| `NormalKey.ReadRawIs` | a311d/soc/amlogic/unifykey/normal_key.c:572-590 | the stored counts are taken over if and only if the head hash is right, else all start again with the header flag; one more initialisation either way |
| `NormalKey.SetFlagIs` | a311d/soc/amlogic/unifykey/normal_key.c:30-35 | raising an error flag sets that bit and no other |
| `NormalKey.SignedRawReads` | a311d/soc/amlogic/unifykey/normal_key.c:572-596 | a signed block passes both of its hashes when it is read |
| `NormalKey.ObjectAt` | a311d/soc/amlogic/unifykey/normal_key.c:614-644 | each object read advances the cursor by at least 8 bytes and never past the declared block size, for every block content |
| `NormalKey.EncodeAll` | a311d/soc/amlogic/unifykey/normal_key.c:676-685 | every key takes at least 72 bytes of the block |
| `KeyStore.StoreRefinesMap` | a311d/soc/amlogic/unifykey/normal_key.c:438-537 | over any run of additions and deletions from any good list, names stay unique, each buffer holds its data, each hash is the hash of the data, and the list agrees with a map run through the same operations |
| `KeyStore.OpRefines` | a311d/soc/amlogic/unifykey/normal_key.c:460-537 | one addition or deletion, accepted or refused, does to the map what it says |
| `KeyStore.FindAgrees` | a311d/soc/amlogic/unifykey/normal_key.c:438-458 | looking a name up in the list is looking it up in the map |
| `KeyStore.ReloadKeepsContents` | a311d/soc/amlogic/unifykey/normal_key.c:614-644 | a reloaded list stands for the same map and is good again |
| `KeyStore.ReloadedReverses` | a311d/soc/amlogic/unifykey/normal_key.c:614-644 | the reloaded list is the saved one reversed, object by object |
| `KeyStore.OverwrittenIs` | a311d/soc/amlogic/unifykey/normal_key.c:480-513 | overwriting keeps name, attribute and type and leaves exactly the new data and its hash, whether the buffer grew or was reused |
| `KeyStore.CreatedIs` | a311d/soc/amlogic/unifykey/normal_key.c:493-513 | a new key holds exactly the given name, data, attribute and hash |
| `KeyStore.Find` | a311d/soc/amlogic/unifykey/normal_key.c:438-458 | the first object of that name, or the end |
| `KeyStore.Store.Init` | a311d/soc/amlogic/unifykey/normal_key.c:410-418 | only a store that is down can be initialised |
| `KeyStore.Store.Deinit` | a311d/soc/amlogic/unifykey/normal_key.c:420-436 | the list is emptied and the store is down |
| `KeyStore.Store.Get` | a311d/soc/amlogic/unifykey/normal_key.c:438-458 | the search loop finds the first object of that name; a missing name finds nothing |
| `KeyStore.Store.OverwriteObject` | a311d/soc/amlogic/unifykey/normal_key.c:485-513 | growing or reusing the buffer gives the overwritten object |
| `KeyStore.Store.AddKey` | a311d/soc/amlogic/unifykey/normal_key.c:460-515 | the new list, and success exactly when the arguments are acceptable, the stored attribute is the same and memory is there when a new node or longer data needs it; otherwise nothing changes |
| `KeyStore.Store.DelKey` | a311d/soc/amlogic/unifykey/normal_key.c:517-537 | removes exactly the first object of that name and reports whether there was one |
| `KeyStore.Store.ReadFromBlock` | a311d/soc/amlogic/unifykey/normal_key.c:539-648 | the state machine and every branch of reading a block, hash failures, size errors and the fields a rejected head leaves included, as the block reader function says; with a wrong data hash no key and one more error; every loaded key carries the hash of its data |
| `KeyStore.Store.LoadObjects` | a311d/soc/amlogic/unifykey/normal_key.c:614-644 | the object loop ends for every content, keeps exactly the genuine objects met, last first, and raises the flags for forged and unreadable ones |
| `KeyStore.Store.WriteToBlock` | a311d/soc/amlogic/unifykey/normal_key.c:650-699 | succeeds exactly when the store is loaded and everything fits, and then leaves the signed block |
| `KeyStore.Store.WriteObjects` | a311d/soc/amlogic/unifykey/normal_key.c:674-685 | the objects one behind the other from byte 1024, or a failure when one finds no room |
| `KeyStore.Store.SignBlock` | a311d/soc/amlogic/unifykey/normal_key.c:693-698 | both hashes over the finished block and the raw head in front, nothing behind it changed |
| `StorageKey.WritePersists` | a311d/soc/amlogic/unifykey/storage_key.c:404-444 | after a key write that succeeds, the next boot loads the written bytes under that name and every other key as it was |
| `StorageKey.AnyBlockPersists` | a311d/soc/amlogic/unifykey/storage_key.c:404-444 | the same for a block of any size: a completed write is what the next boot loads, and its copies count as valid exactly when the memory behind the block is zero |
| `StorageKey.InterruptedWriteIsAtomic` | a311d/soc/amlogic/unifykey/storage_key.c:404-444 | a key write interrupted at any block leaves the next boot with the map from before or the map after, provided there is no checksum collision |
| `StorageKey.SavedImageLoads` | a311d/soc/amlogic/unifykey/storage_key.c:307-345 | booting from a card that stands for a saved image loads exactly the saved map |
| `StorageKey.SameViewSameLoad` | a311d/soc/amlogic/unifykey/storage_key.c:307-345 | what a boot loads depends on the card only through the image it stands for |
| `StorageKey.NormalKeys.Init` | a311d/soc/amlogic/unifykey/storage_key.c:307-345 | reads the block from the card and loads it, once, when the storage is registered and large enough |
| `StorageKey.NormalKeys.Read` | a311d/soc/amlogic/unifykey/storage_key.c:388-402 | exactly the bytes the map holds under that name when they fit the caller's buffer, nothing otherwise |
| `StorageKey.NormalKeys.Write` | a311d/soc/amlogic/unifykey/storage_key.c:404-444 | an accepted key is in the list, and if the list fits, its block of any size, with the memory behind it, goes to the card; the length is reported exactly when both copies were written; in every other case the card is untouched |
| `KeyRuns.StackIsCrashSafeMap` | a311d/soc/amlogic/unifykey/storage_key.c:307-444 | over every run of key writes, with or without memory for them, interruptions and boots that meets no collision, the stack is a map that survives crashes with a working copy in memory: writes are all or nothing on the card, refused or oversized ones leave it unchanged, boots restore the copy from it |
| `KeyRuns.RunKeepsInv` | a311d/soc/amlogic/unifykey/storage_key.c:307-444 | at every moment of such a run the card can be booted into a good store |
| `KeyRuns.SavedStep` | a311d/soc/amlogic/unifykey/storage_key.c:404-444 | the part of a key write that reaches the card moves the persistent map to the old or the new one, and to the new one when it completes |
| `KeyRuns.PutStep` | a311d/soc/amlogic/unifykey/storage_key.c:404-444 | a key write of either outcome is a step of the crash-safe map |
| `KeyRuns.RebootStep` | a311d/soc/amlogic/unifykey/storage_key.c:307-345 | a boot, interrupted anywhere, is a step of the crash-safe map |
| `KeyRuns.PutKey` | a311d/soc/amlogic/unifykey/storage_key.c:404-444 | the code's key write is a step of such a run |
| `KeyRuns.PowerOn` | a311d/soc/amlogic/unifykey/storage_key.c:307-345 | the code's recovery and initialisation are a step of such a run |
| `KeyRuns.BlankStart` | a311d/soc/amlogic/unifykey/storage_key.c:307-345 | a card never written starts such a run with no keys |
| `Ge2dRuns.JobsRunUnderTheirConfig` | a311d/soc/amlogic/ge2d/ge2d_wq.c:375-440 | in every interleaving, each start takes the next job of its context in submission order and finds every register group as that job's configuration asks, although only flagged groups are written |
| `Ge2dRuns.ExactlyOnceInOrder` | a311d/soc/amlogic/ge2d/ge2d_wq.c:375-490 | in every interleaving, the jobs a context has run are an initial part of the jobs it queued, the rest is its work list in order, and its two lists always partition the items it was created with |
| `Ge2dRuns.BlockingReturn` | a311d/soc/amlogic/ge2d/ge2d_wq.c:590-624 | a blocking submission that is not interrupted returns only when its own job, the context's latest, has been started and waited for |
| `Ge2dRuns.NoLostWakeup` | a311d/soc/amlogic/ge2d/ge2d_wq.c:590-664 | in every interleaving, queued work whose submitter is past the semaphore check keeps the semaphore up or is ahead of the monitor; a sleeping monitor leaves only work whose submitter is about to wake it, and the two steps that do so are enabled |
| `Ge2dRuns.VisitedBeforeSleep` | a311d/soc/amlogic/ge2d/ge2d_wq.c:626-664 | work ahead of the monitor stays ahead of it, and the monitor away from `down`, until the work is drained |
| `Ge2dRuns.BoundedWaiting` | a311d/soc/amlogic/ge2d/ge2d_wq.c:626-643 | while a context has work and is passed over, every pick strictly shortens its wait; at most its place in the ring many picks come before it, and always fewer than there are contexts |
| `Ge2dRuns.MonitorNeverStuck` | a311d/soc/amlogic/ge2d/ge2d_wq.c:375-490 | the monitor never meets an empty list or a missing context where its code needs one |
| `Ge2dRuns.FilledNeverStuck` | a311d/soc/amlogic/ge2d/ge2d_wq.c:590-612 | a thread that found a free item still has it when it comes to queue it |
| `Ge2dRuns.RunInv` | a311d/soc/amlogic/ge2d/ge2d_wq.c:375-664 | ring, wake-up, item, order and register invariants hold at every moment of every run |
| `Ge2dRuns.HistoryIsTrace` | a311d/soc/amlogic/ge2d/ge2d_wq.c:590-612 | the recorded histories are exactly what the run's steps queued and started |
| `Ge2dRuns.VisitStep` | a311d/soc/amlogic/ge2d/ge2d_wq.c:626-664 | one step keeps a context with work ahead of the monitor or drains it |
| `Ge2dRuns.WaitStep` | a311d/soc/amlogic/ge2d/ge2d_wq.c:626-643 | no step makes a waiting context wait longer, and a pick of another makes it wait less |
| `Ge2dRuns.PositionRotates` | a311d/soc/amlogic/ge2d/ge2d_wq.c:626-643 | moving the list head behind the chosen context keeps the cyclic order of the ring |
| `Ge2dQueue.RingStep` | a311d/soc/amlogic/ge2d/ge2d_wq.c:626-643 | every step keeps each context in the ring exactly once |
| `Ge2dQueue.WakeStep` | a311d/soc/amlogic/ge2d/ge2d_wq.c:590-664 | every step keeps the wake-up invariant |
| `Ge2dOrder.QueueStep` | a311d/soc/amlogic/ge2d/ge2d_wq.c:375-624 | every step keeps the item, order and call invariants of every context |
| `Ge2dOrder.IdsDistinct` | a311d/soc/amlogic/ge2d/ge2d_wq.c:2081-2119 | no item is in a work list twice |
| `Ge2dOrder.FreeNotQueued` | a311d/soc/amlogic/ge2d/ge2d_wq.c:590-612 | a free item is not queued |
| `Ge2dOrder.CallMonitor` | a311d/soc/amlogic/ge2d/ge2d_wq.c:454-462 | a blocking submitter is released only by the completion of its own item |
| `Ge2dDirty.DirtyStep` | a311d/soc/amlogic/ge2d/ge2d_wq.c:375-440 | every step keeps the chain of configurations covered by the flags, from what last ran through the queue to the context's own |
| `Ge2dDirty.StartProgramsAll` | a311d/soc/amlogic/ge2d/ge2d_wq.c:408-440 | at a start, the flagged writes leave the registers equal to the item's whole configuration |
| `Ge2dDirty.ChainThread` | a311d/soc/amlogic/ge2d/ge2d_wq.c:590-612 | setters and submissions of a context's thread extend that chain |
| `Ge2dConfig.ProgramIsComplete` | a311d/soc/amlogic/ge2d/ge2d_wq.c:413-438 | writing the flagged groups is writing all of them if and only if the flags cover every difference |
| `Ge2dConfig.ProgramFlagged` | a311d/soc/amlogic/ge2d/ge2d_wq.c:411-438 | the mask loop, which stops early when no flag is left, programs exactly the groups whose bits are set, for any layout of distinct bits with the scale coefficients highest |
| `Ge2dConfig.Program` | a311d/soc/amlogic/ge2d/ge2d_wq.c:413-438 | a flagged group comes from the configuration, any other stays |
| `Ge2dConfig.CoversTrans` | a311d/soc/amlogic/ge2d/ge2d_wq.c:590-612 | flags that only grow cover the difference across several changes |
| `Ge2dConfig.RequestCovers` | a311d/soc/amlogic/ge2d/ge2dgen.c:130-389 | whatever any of the setters changes, it flags, and it clears no flag |
| `Ge2dConfig.MatrixIs` | a311d/soc/amlogic/ge2d/ge2dgen.c:44-61 | the matrix is on if and only if a format is custom or exactly one is YUV; it converts from the source's kind to the destination's with the range of the YUV side and the standard of the destination; between formats of one kind it keeps its value, and nothing else is touched |
| `Ge2dConfig.RequestMatches` | a311d/soc/amlogic/ge2d/ge2dgen.c:107-239 | a changed source or destination leaves the matrix fitting the two stored formats; every other request but switching it off and a full reconfiguration keeps it so |
| `Ge2dConfig.RequestsMatch` | a311d/soc/amlogic/ge2d/ge2dgen.c:130-389 | over every list of requests the flags cover all that changed, and a matrix that fits keeps fitting |
| `Ge2dConfig.PicStructIs` | a311d/soc/amlogic/ge2d/ge2dgen.c:34 | the picture structure is bits 3 and 4 of the format |
| `Ge2dConfig.Rect` | a311d/soc/amlogic/ge2d/ge2dgen.c:241-253 | a clip starts at the position given and is as wide and high as asked |
| `Ge2dConfig.BitsNamed` | a311d/soc/amlogic/ge2d/ge2d_wq.c:413-438 | a flag word names exactly the groups whose bits were set in it |
| `Ge2dConfig.DriverLayout` | a311d/soc/include/linux/amlogic/media/ge2d/ge2d.h:351-357 | the driver's six update bits are such a layout and their union is the word of the six lowest bits |
| `Ge2dConfig.Setters.Take` | a311d/soc/amlogic/ge2d/ge2dgen.c:130-389 | each setter leaves the configuration and the flags its request asks for; a changed source or destination leaves a matrix that fits the formats, and only switching it off or a full reconfiguration undoes that |
| `Ge2dConfig.Setters.Src` | a311d/soc/amlogic/ge2d/ge2dgen.c:130-149 | stores the source, follows with picture structure and the colour matrix that converts from its format to the stored destination's, and flags every group it changed; a repeat changes nothing |
| `Ge2dConfig.Setters.Src2` | a311d/soc/amlogic/ge2d/ge2dgen.c:202-218 | the same for the second source, whose canvas address is cut to a byte after the comparison |
| `Ge2dConfig.Setters.Dst` | a311d/soc/amlogic/ge2d/ge2dgen.c:220-239 | the same for the destination, with the matrix that converts from the stored source's format |
| `Ge2dConfig.Setters.SrcClip` | a311d/soc/amlogic/ge2d/ge2dgen.c:241-257 | the clip is stored and every changed group flagged |
| `Ge2dConfig.Setters.Src2Clip` | a311d/soc/amlogic/ge2d/ge2dgen.c:259-276 | the clip is stored and every changed group flagged |
| `Ge2dConfig.Setters.DstClip` | a311d/soc/amlogic/ge2d/ge2dgen.c:335-353 | the clip and its mode, cut to a byte after the comparison, are stored and every changed group flagged |
| `Ge2dConfig.Setters.SrcKey` | a311d/soc/amlogic/ge2d/ge2dgen.c:278-293 | the colour key is stored with its one-bit fields cut after the comparison, and every changed group flagged |
| `Ge2dConfig.Setters.SrcColor` | a311d/soc/amlogic/ge2d/ge2dgen.c:313-321 | the colour is stored and every changed group flagged |
| `Ge2dConfig.Setters.GbAlpha` | a311d/soc/amlogic/ge2d/ge2dgen.c:296-311 | the alpha, and the second source's where the build has it, are stored and every changed group flagged |
| `Ge2dConfig.Setters.ConstColor` | a311d/soc/amlogic/ge2d/ge2dgen.c:373-381 | the colour is stored and every changed group flagged |
| `Ge2dConfig.Setters.Antiflicker` | a311d/soc/amlogic/ge2d/ge2dgen.c:151-162 | the switch is stored as one bit and every changed group flagged |
| `Ge2dConfig.Setters.DisableMatrix` | a311d/soc/amlogic/ge2d/ge2dgen.c:383-389 | the matrix is switched off and its group flagged |
| `Ge2dConfig.Setters.ScaleCoefs` | a311d/soc/amlogic/ge2d/ge2d_wq.c:580-588 | the coefficient types are stored and their group flagged |
| `Ge2dConfig.Setters.Reconfigure` | a311d/soc/amlogic/ge2d/ge2d_wq.c:1376-1396 | a full reconfiguration flags every group |
| `Ge2dEngine.Engine.constructor` | a311d/soc/amlogic/ge2d/ge2d_wq.c:2171-2204 | no context, semaphore 1, the monitor about to take it |
| `Ge2dEngine.Engine.NextWorkQueue` | a311d/soc/amlogic/ge2d/ge2d_wq.c:626-643 | the first context in the ring with work, the ring rotated behind it; nothing exactly when no context has work |
| `Ge2dEngine.Engine.ProcessWorkQueue` | a311d/soc/amlogic/ge2d/ge2d_wq.c:375-490 | the picked context is drained, nothing else changes but the registers, which end up as its last job's configuration |
| `Ge2dEngine.Engine.ProcessItem` | a311d/soc/amlogic/ge2d/ge2d_wq.c:408-482 | one turn of the loop processes the first item and programs exactly its configuration |
| `Ge2dEngine.Engine.RunItem` | a311d/soc/amlogic/ge2d/ge2d_wq.c:408-453 | programs the flagged groups by the mask loop, which leaves the item's whole configuration, starts and waits for the first item |
| `Ge2dEngine.Engine.RetireItem` | a311d/soc/amlogic/ge2d/ge2d_wq.c:454-462 | releases the submitter and moves the item to the free list; the loop ends when the list is empty |
| `Ge2dEngine.Engine.BeginQueue` | a311d/soc/amlogic/ge2d/ge2d_wq.c:390-406 | after another context the first item rewrites every group; what the queue will do is unchanged |
| `Ge2dEngine.Engine.LeaveQueue` | a311d/soc/amlogic/ge2d/ge2d_wq.c:483-490 | the context is remembered as the last one |
| `Ge2dEngine.Engine.TakeSemaphore` | a311d/soc/amlogic/ge2d/ge2d_wq.c:645-664 | a raised semaphore is taken and a scan begins |
| `Ge2dEngine.Engine.MonitorPass` | a311d/soc/amlogic/ge2d/ge2d_wq.c:645-664 | taking the semaphore once ends, drains every context and leaves the monitor at the semaphore again |
| `Ge2dEngine.Engine.AddWork` | a311d/soc/amlogic/ge2d/ge2d_wq.c:590-616 | refused exactly when no item is free; otherwise the job is queued last, the flags are reset, and the semaphore is raised from zero or a sleeping monitor woken |
| `Ge2dEngine.Engine.EndCall` | a311d/soc/amlogic/ge2d/ge2d_wq.c:617-621 | the end of a submission: at once, when its job is done, or interrupted; a blocking one that was not interrupted finds every job of its context run |
| `Ge2dEngine.Engine.SubmitAndWait` | a311d/soc/amlogic/ge2d/ge2d_wq.c:590-624 | a blocking submission from start to end with the monitor's pass in between: its job has run last of all the context ever queued, and the context can submit again |
| `Ge2dEngine.Engine.SetUp` | a311d/soc/amlogic/ge2d/ge2dgen.c:130-389 | a setter call on a context leaves exactly the configuration and flags its request asks for, with the matrix fitting the formats as above |
| `Ge2dEngine.Engine.QueueItem` | a311d/soc/amlogic/ge2d/ge2d_wq.c:599-612 | the first free item carries the command, configuration and flags to the end of the work list |
| `Ge2dEngine.Engine.RaiseSemaphore` | a311d/soc/amlogic/ge2d/ge2d_wq.c:613-618 | the semaphore is raised only from zero, or a sleeper woken instead |
| `Ge2dEngine.Engine.CreateWorkQueue` | a311d/soc/amlogic/ge2d/ge2d_wq.c:2081-2119 | a new context with all items free at the end of the ring |
| `Ge2dEngine.DrainedIs` | a311d/soc/amlogic/ge2d/ge2d_wq.c:408-482 | draining starts exactly the queued jobs in order and returns every item, in order, to the free list |
| `Ge2dEngine.DrainedRest` | a311d/soc/amlogic/ge2d/ge2d_wq.c:408-482 | draining leaves no submitter waiting and changes nothing else of the context |
| `Ge2dEngine.DrainedReleases` | a311d/soc/amlogic/ge2d/ge2d_wq.c:408-482 | draining releases the submitter of a queued item and keeps what was accepted |
| `Ge2dEngine.InvStep` | a311d/soc/amlogic/ge2d/ge2d_wq.c:375-664 | every step of the machine keeps all its invariants |
| `Canvas.SearchComplete` | a311d/soc/amlogic/canvas/canvas_mgr.c:55-94 | the wrapping search fails exactly when every canvas from 1 up is taken, never returns a used one, and returns the first free one going round |
| `Canvas.FirstFree` | a311d/soc/amlogic/canvas/canvas_mgr.c:63-66 | the first free canvas from an index on, everything before it taken |
| `Canvas.AllocOne` | a311d/soc/amlogic/canvas/canvas_mgr.c:55-94 | takes exactly the canvas found, which was free and is not canvas 0, and keeps the cursor in the pool |
| `Canvas.AttemptIs` | a311d/soc/amlogic/canvas/canvas_mgr.c:119-186 | a turn succeeds exactly when a long enough free run starts at the first free canvas, and then takes exactly that run; a failed turn restores the bitmap and the count |
| `Canvas.SetIs` | a311d/soc/amlogic/canvas/canvas_mgr.c:108-194 | the whole retry loop succeeds exactly when such a run starts at the first free canvas from the cursor or from the one retry cursor; a success hands out consecutive, previously free, non-zero canvases and moves the cursor behind them; a failure changes only the cursor, and says to where |
| `Canvas.RunMissed` | a311d/soc/amlogic/canvas/canvas_mgr.c:116-179 | the run search is not complete: a pool with two free neighbours in which it fails |
| `Canvas.Unpack` | a311d/soc/amlogic/canvas/canvas_mgr.c:322-338 | all four bytes of a packed word for each kind of run, and that they name exactly the run, and canvas 0 besides for all but four-canvas words |
| `Canvas.FreeEntryIs` | a311d/soc/amlogic/canvas/canvas_mgr.c:322-338 | freeing a word clears exactly the canvases its bytes name |
| `Canvas.FillIs` | a311d/soc/amlogic/canvas/canvas_mgr.c:288-319 | what a table allocation takes was free, each canvas is named by exactly one word, and the words are packed runs |
| `Canvas.FreeAllIs` | a311d/soc/amlogic/canvas/canvas_mgr.c:322-344 | freeing a table clears exactly the canvases its words name |
| `Canvas.TableRestores` | a311d/soc/amlogic/canvas/canvas_mgr.c:288-344 | allocating a table, wholly or until it fails, and freeing it restores the bitmap at every canvas but 0, and says exactly when 0 is cleared; the count of free canvases ends one too high for each word with an empty high byte |
| `Canvas.FillCounts` | a311d/soc/amlogic/canvas/canvas_mgr.c:288-344 | what filling and freeing a table do to the count of free canvases |
| `Canvas.FreeEntryCounts` | a311d/soc/amlogic/canvas/canvas_mgr.c:322-338 | freeing one word counts its canvases, and canvas 0 for an empty high byte |
| `Canvas.ManyTake` | a311d/soc/amlogic/canvas/canvas_mgr.c:119-145 | several single allocations take exactly the canvases they return, all of them free before |
| `Canvas.ReleaseIs` | a311d/soc/amlogic/canvas/canvas_mgr.c:168-176 | the rollback clears exactly what was really allocated |
| `CanvasPool.Canvases.constructor` | a311d/soc/amlogic/canvas/canvas_mgr.c:222-233 | an empty pool with the cursor in the middle |
| `CanvasPool.Canvases.FindNextZero` | a311d/soc/amlogic/canvas/canvas_mgr.c:63-66 | the bit scan finds the first free canvas |
| `CanvasPool.Canvases.AllocIn` | a311d/soc/amlogic/canvas/canvas_mgr.c:55-94 | the search loop ends and fails exactly when all canvases from 1 up are taken; otherwise the first free one going round is taken, the cursor moved behind it and the count lowered |
| `CanvasPool.Canvases.FreeIn` | a311d/soc/amlogic/canvas/canvas_mgr.c:196-209 | clears the bit and raises the count by one, repeated frees included; refuses indices outside the pool |
| `CanvasPool.Canvases.Turn` | a311d/soc/amlogic/canvas/canvas_mgr.c:119-186 | one turn of the retry loop, and all four bytes of its word when it succeeds |
| `CanvasPool.Canvases.AllocEach` | a311d/soc/amlogic/canvas/canvas_mgr.c:120-145 | the allocations of a turn, by kind of run |
| `CanvasPool.Canvases.Rollback` | a311d/soc/amlogic/canvas/canvas_mgr.c:168-176 | gives back what a failed turn allocated |
| `CanvasPool.Canvases.AllocContinueSet` | a311d/soc/amlogic/canvas/canvas_mgr.c:108-194 | the loop over all retries comes to two attempts; a success returns the word of a run that was free, byte by byte, takes exactly that run and moves count and cursor past it; a failure changes only the cursor |
| `CanvasPool.Canvases.FreeWord` | a311d/soc/amlogic/canvas/canvas_mgr.c:327-340 | frees each canvas a word names once |
| `CanvasPool.Canvases.FreeTable` | a311d/soc/amlogic/canvas/canvas_mgr.c:322-344 | frees every word and zeroes the table |
| `CanvasPool.Canvases.FillTable` | a311d/soc/amlogic/canvas/canvas_mgr.c:298-308 | fills the table from the front until the first failure |
| `CanvasPool.Canvases.AllocTable` | a311d/soc/amlogic/canvas/canvas_mgr.c:288-319 | the whole table or nothing: on failure the bitmap is as before, except canvas 0 exactly when a word with an empty high byte was freed, and the count is too high by the number of such words |
| `Scaler.StepExact` | a311d/soc/amlogic/ge2d/ge2d_hw.c:624-636 | for sizes 1 to 8192, the 32-bit step is non-zero and at most 64 units below the exact ratio, so output times step never passes the input, if and only if the pre-scaled input is below 256 times the output |
| `Scaler.SizesExact` | a311d/soc/amlogic/ge2d/ge2d_hw.c:624-636 | the same in terms of the sizes asked for alone: up to a reduction by two the step is the ratio of the sizes; beyond, it is the ratio for half the input, rounded up, if and only if the input plus one is below 512 times the output |
| `Scaler.StepVanishes` | a311d/soc/amlogic/ge2d/ge2d_hw.c:630-632 | the step wraps to zero if and only if the pre-scaled input is a multiple of 256 times the output |
| `Scaler.StepVanishesAt512` | a311d/soc/amlogic/ge2d/ge2d_hw.c:630-632 | 512 pixels to 1 gives a step of zero |
| `Scaler.DividerExact` | a311d/soc/amlogic/ge2d/ge2d_hw.c:638-644 | with the signed division and the 32-bit product of the source, the divider length is the number of whole steps in 124 pixels and the product is not cut, if and only if the step is below 0x84000000 |
| `Scaler.DividerWrapsAt384` | a311d/soc/amlogic/ge2d/ge2d_hw.c:624-644 | 384 pixels to 1 gives a step of 0xC0000000, a length of 0xFFFFFFFF and a product that wraps |
| `Scaler.LengthBelow` | a311d/soc/amlogic/ge2d/ge2d_hw.c:639 | below that bound the signed division is the unsigned one |
| `Scaler.LengthAbove` | a311d/soc/amlogic/ge2d/ge2d_hw.c:639 | from it on the quotient is negative and large when stored |
| `Scaler.DerivedBelow` | a311d/soc/amlogic/ge2d/ge2d_hw.c:630-639 | a derived step is below the bound if and only if the pre-scaled input, modulo 256 times the output, is below 132 times the output |
| `Scaler.SizesDivide` | a311d/soc/amlogic/ge2d/ge2d_hw.c:624-639 | where the step itself is right, that is when the input plus one is below 264 times the output |
| `Scaler.StepPeriodic` | a311d/soc/amlogic/ge2d/ge2d_hw.c:630-632 | the step depends only on the ratio modulo 256 |
| `Scaler.Command.SetScaler` | a311d/soc/amlogic/ge2d/ge2d_hw.c:618-644 | both steps, kept when given and otherwise against the source and destination rectangles themselves, with the destination's sides exchanged under swap; exactly when they are right; exactly when the divider would meet a zero step; and the divider fields with the exact sizes or given steps for which they are right |
| `Scaler.Command.SetDivider` | a311d/soc/amlogic/ge2d/ge2d_hw.c:638-644 | the divider fields for any non-zero step, right exactly below the bound |
| `Layers.IdPool.GetIdleId` | a311d/hardware/display/src/display_device/hdi_layer.cpp:72-90 | the first unused id going round from the cursor, or none exactly when none is free; the search ends unless all ids are taken and the cursor is at the reserved value |
| `Layers.SearchNeverEnds` | a311d/hardware/display/src/display_device/hdi_layer.cpp:72-90 | in that one case the search meets neither a free id nor its start, after any number of turns |
| `Layers.ProbeReaches` | a311d/hardware/display/src/display_device/hdi_layer.cpp:72-90 | one turn of the search passes every id |
| `Layers.Display.CreateLayer` | a311d/hardware/display/src/display_device/hdi_display.cpp:92-108 | a new layer on top of all others under an id nobody uses; without a free id nothing is created, id 0 is released, and the display stays consistent exactly when it had no layer 0; as the step of a run of several displays |
| `Layers.Display.DestroyLayer` | a311d/hardware/display/src/display_device/hdi_display.cpp:117-135 | the layer leaves the map and the order and its id becomes free; a missing id changes nothing |
| `Layers.Display.Close` | a311d/hardware/display/src/display_device/hdi_display.cpp:60-63 | destroying a display releases the ids of all its layers and, with its client layer, id 0 |
| `Layers.Display.SetLayerZorder` | a311d/hardware/display/src/display_device/hdi_display.cpp:65-90 | the layer moves behind those of its new z, the others keep their order; a missing id or the same z changes nothing |
| `Layers.Display.Erase` | a311d/hardware/display/src/display_device/hdi_display.cpp:76-85 | the layer is always found among those of its own z, and exactly it is erased |
| `Layers.Display.Insert` | a311d/hardware/display/src/display_device/hdi_display.cpp:86-87 | insertion behind all layers of the same z |
| `Layers.Display.SetLayerVisible` | a311d/hardware/display/src/display_device/hdi_layer.cpp:188-193 | visibility changes and the order stays |
| `Layers.Display.PrepareDisplayLayers` | a311d/hardware/display/src/display_device/hdi_display.cpp:179-200 | the composer receives exactly the visible layers, once each, in ascending z; a layer is remembered as changed if and only if it was shown with another composition than chosen, in the order shown; the choices are taken over and nothing else |
| `Layers.ChangesIs` | a311d/hardware/display/src/display_device/hdi_display.cpp:179-200 | the remembered layers are exactly the shown ones whose composition differs from the choice, in the order shown |
| `Layers.VisibleAscending` | a311d/hardware/display/src/display_device/hdi_display.cpp:182-190 | filtering the ordered layers keeps them distinct and ascending |
| `Layers.AgreeInsert` | a311d/hardware/display/src/display_device/hdi_layer.h:206-214 | insertion keeps the ordered layers distinct, ascending in z and equal to the mapped ones |
| `Layers.AgreeRemove` | a311d/hardware/display/src/display_device/hdi_layer.h:206-214 | so does removal |
| `Layers.InsertedOnTop` | a311d/hardware/display/src/display_device/hdi_layer.h:187-195 | a layer with the default z goes on top |
| `LayerRuns.LiveIdsDistinct` | a311d/hardware/display/src/display_device/hdi_layer.cpp:72-99 | over every run of calls on any number of displays, failed creations and closed displays included, in which neither released a live id 0, no two live layers share an id |
| `LayerRuns.LayersAgree` | a311d/hardware/display/src/display_device/hdi_display.cpp:65-191 | over every such run, each display orders exactly its mapped layers, once each and ascending in z, and its visible ones likewise |
| `LayerRuns.RunInv` | a311d/hardware/display/src/display_device/hdi_display.cpp:65-135 | over every run, the displays agree and every live id is marked and live once at all moments if and only if no creation failed while some display had a layer 0 and no display was closed while another had one |
| `LayerRuns.CallStep` | a311d/hardware/display/src/display_device/hdi_display.cpp:65-135 | a call keeps that invariant if and only if it is not a failed creation while some display has a layer 0, nor the closing of a display while another has one |
| `LayerRuns.FailureBreaks` | a311d/hardware/display/src/display_device/hdi_layer.h:178-181 | a failed creation or a closed display with a live layer 0 elsewhere leaves that id marked free |
| `LayerRuns.ZeroTwice` | a311d/hardware/display/src/display_device/hdi_layer.h:178-181 | after such a failure 0 is the only free id, so the next creation on any display hands it out a second time; on the same display the new layer is discarded and 0 is free again |
| `LayerRuns.HarmlessInv` | a311d/hardware/display/src/display_device/hdi_display.cpp:65-135 | the invariant holds after any run in which no call released a live id 0 |

## Left out

- `EmmcKey.Card.Write`: continuing after a failed write without a boot is not claimed to be safe; runs take the driver down until recovery completes.
- `EmmcKey.Card.WriteOneKey`: block writes land in order; a card that reorders them across an interruption is not modelled.
- `KeyStore.Store.AddKey`: a failing SHA-256 computation, whose result the driver ignores, is not modelled.
- `KeyStore.Store.ReadFromBlock`: where a malformed but correctly hashed block would make the code leave the block or an object's buffers, the result is only marked undefined; allocations fail here only by size.
- `Tlv.TakeField`: an allocation for data is refused only by its size; one that fails for lack of memory while a block is read is not modelled.
- `StorageKey.NormalKeys.Init`: blocks configured larger than a key area, which the card's read loop does not support, are not modelled.
- `Ge2dConfig.Setters.DisableMatrix`: whether the matrix is switched on again when the same formats are configured later is not claimed.
- `Ge2dConfig.Setters.Reconfigure`: stands for the reconfiguration calls only in that they store a configuration and flag everything; how they derive it is not modelled.
- `Ge2dRuns.JobsRunUnderTheirConfig`: leaves out the bits `ge2d_set_cmd` writes with each command and the canvas index words `ge2d_set_canvas` writes for each item.
- `CanvasPool.Canvases.FreeIn`: `free_num` is not conserved, since repeated frees raise it; how far freeing a table drives it up is in `Canvas.TableRestores`.
- `CanvasPool.Canvases.AllocIn`: sequential callers; the lock-free scan racing with other allocators is not modelled.
- `LayerRuns.ZeroTwice`: what later calls do with the entry that points to a discarded layer is not modelled.
- Read errors of the card, partition look-up, the build without a second copy, and checking the reserved area at probe time.
- Owners and timestamps of canvases, constant canvases, and the canvas registers themselves.
- Destroying a work queue, the one-second and half-second timeouts, soft reset, power gating and DMA buffer mapping of the GE2D engine.
- Real register layouts; the number of items per context is a parameter.
- Initial phases, repeat counts and chroma settings of the scaler.
- Fences, buffers, composition and DRM behind the display layers; the composer's choice is a parameter.
- Secure keys, efuse, the unified-key device files, ioctls, sysfs, probing and device trees: they pass requests on to firmware and kernel frameworks whose behaviour is not in these sources.
- Codec, PHY and clock tables, which hold data rather than behaviour.
