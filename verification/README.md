# Xen 4.1.2: proofs about Mini-OS, the qcow drivers, AES and the kexec page exchange

This project models the parts of Xen 4.1.2 whose correctness rests on an
invariant that no single function shows, and proves that invariant and what
follows from it. Code that changes state in place is modelled by classes and
methods with loops, proved against specification functions; code that runs
concurrently is modelled by machines of atomic steps, and what is proved of it
holds for every interleaving.

| Component | Files | What is proved |
|---|---|---|
| Mini-OS page allocator | `Words`, `Bitmap`, `BuddyTheory`, `FreeLists`, `PageAllocator` | Bitmap, in-page headers, doubly linked free lists and buddy structure stay consistent over any run of allocations, releases and client writes; allocation fails only if no aligned free block exists; the merge test never reads a stale header; the free chunks are a function of the free pages alone |
| qcow2 driver | `Qcow2Tables`, `Qcow2Layout`, `Qcow2Refcounts`, `Qcow2Snapshots`, `Qcow2Goto`, `Qcow2Cow`, `Qcow2Link`, `Qcow2Runs`, `Qcow2Content`, `Qcow2Overlay`, `Qcow2Stored`, `Qcow2SnapshotReads`, `Qcow2Ids`, `Qcow2Create`, `Qcow2Driver`, `Qcow2Session`, `Qcow2Examples` | From a new image, any mix of writes, at any sector, and of snapshot creations, applications and deletions refines a simple form that keeps one whole copy per snapshot; every reference count stays exact, but for clusters that applying a shorter snapshot loses, and COPIED equal to "count is one"; what each write leaves in the file, enciphered if the image is encrypted; where a promise ends, the exact condition and an image at which it does |
| qcow version 1 driver | `Qcow1Image`, `Qcow1Driver` | Exactly what a write changes, in what is read and in the file; the driver is a flat array of sectors if and only if the sectors it exposes read as zeroes in the backing image; host ranges are disjoint; cached tables equal those in the file |
| Shared | `L2Cache`, `Sectors`, `Division`, `Collections` | The sixteen-slot table cache of both drivers, sector encryption, block arithmetic, and sequences |
| AES and CBC | `Rijndael`, `Aes`, `AesBlock`, `AesKeys`, `AesCrypt`, `AesBytes`, `Cbc`, `SectorCipher` | The table-driven rounds are the FIPS 197 transformations, and the key schedule, the block cipher and the chaining are those of the standards byte by byte; decryption inverts encryption for every key of 128, 192 or 256 bits; CBC round trip for every length, in place too; so sector encryption is invertible as the drivers need |
| kexec | `Kexec` | The frame map stays a permutation, displaced pages are found by following the chain, and the emitted updates turn the old inverse map into the new one; when a call that shrinks the image keeps this |
| Event channels | `EventChannels`, `EventDelivery` | No event is lost and a set selector leads to another upcall, for every interleaving of guest and hypervisor steps; masking and unmasking last; an event that is sent is handled; calls and upcalls deliver before they return, and end |
| Free lists of ids | `FreeIds`, `GrantTable`, `TxRing` | A grant lasts as it was given until it is cleared, and a frame in use is not given back; list length is semaphore count plus takers and releasers on their way; no id is handed out twice; the transmit ring never overfills, wherever senders sleep; requests get slots of their own if and only if senders do not overtake one another |
| Scheduler | `Scheduler` | Bounded waiting, and its converse: who blocks, sleeps or has exited is not chosen; the domain never blocks past the earliest wakeup; the stack in use is never freed |
| Direct file access | `RawIo` | Exactly when unaligned reads and writes through aligned device calls are exact and end, at the end of a file too |

## How the model stands to the code

- Integers are unbounded except where width matters: bitmap words are 64 bits
  (`Words`), reference counts stop at 0xffff, cache hit counts at 0xffffffff.
- Mini-OS pages are named by frame number; `to_virt` and `virt_to_pfn` are
  identities. Memory is smaller than 2^51 frames, the top order.
- `init_page_allocator` sizes the bitmap from `max + 1`, which covers the word
  of frame `max_pfn` exactly when `max_pfn % 32768 >= 8`
  (`BitmapReachesMaxPfn`). With remainder 1 to 7 the bitmap does not cover all
  frames (`BitmapTooShortExample`). With remainder 0 it ends at `max_pfn`: the
  map operations write back what they read there, and `free_pages` comes to
  test that bit if and only if the largest aligned block that ends at `max_pfn`
  is in the pool (`MaxPfnTestedIff`), which it never is when the number of
  frames is a power of two. The allocator is constructed in the remaining cases.
- AES bytes are kept abstract, with addition, doubling and an S-box with an
  inverse under named laws; `AesParamsAreLawful` shows that bytes with
  exclusive or, doubling modulo x^8 + x^4 + x^3 + x + 1, and any invertible
  S-box satisfy them. The T-tables are defined from the S-box.
- qcow2 is modelled as on a big-endian host, where `be64_to_cpu` is the
  identity: `alloc_cluster_link_l2` keeps and frees table entries without
  converting them. Device accesses succeed, no cluster is compressed, and
  refcount blocks exist. A table entry is a cluster number and the COPIED flag.
  Guest data, level-2 tables and level-1 tables are separate maps over
  clusters; `OneUse`, part of the invariant, says that no live cluster is used
  as two of these, which is what makes the separation faithful.
- `Sound` is more than `check_refcounts` checks: no tree refers to a cluster
  twice, and no cluster has two uses. `CheckedIsNotSound` gives an image that
  it accepts and that is not sound. New images are sound, and every
  operation keeps them so, with lost clusters counted as held, for as long as
  the references can be counted.
- `qcow_snapshot_goto` changes the level-1 size in memory and not in the file
  (line 2048 of block-qcow2.c). So clusters can be lost, counted with nothing
  referring to them, and the file's table can have entries past the end of the
  one in memory. The model keeps both: `LostIsLeaked` and `InFileIff` say when
  the counts, and the file as it would be opened again, stay sound.
- `find_new_snapshot_id` adds one to an `int`; the sum is taken to wrap around.
- The two look-ahead reads of `alloc_cluster_offset` at index `nb_clusters` are
  guarded; their result does not affect the number of clusters chosen.
- In the event-channel machine the hypervisor sets the pending bit, tests the
  mask, sets the selector bit and raises the upcall flag in that order, for any
  number of events at once, and may enter the callback between any two guest
  steps when the upcall is not masked.
- In `TxRing` a sender reads `req_prod_pvt` in one step and fills its slot and
  writes the index in another, and anything may happen between, since
  `gnttab_grant_access` can sleep there. Publishing the index is part of the
  second step. Slots are numbered as the index is, without wrapping around. The backend answers each request at most once.
- In `Scheduler`, what follows `switch_threads` runs on the stack of the thread
  switched to: a thread that was inside `schedule` goes on there with its own
  `prev`, and a new thread begins elsewhere.
- In `RawIo` a read gives fewer bytes than asked for at the end of the file and
  nowhere else, and a loop that makes no progress is reported as one that does
  not end.
- Quotients, remainders and products by a variable are defined by repeated
  subtraction and addition; `Division.AreArithmetic` and `Division.MulIs` show
  that they are the usual ones.
- The clock, the allocator's callers, what handlers do, and the backing image
  are parameters.

## Model

| member | source | states |
|---|---|---|
| Bitmap.MapAlloc | xen-4.1.2/extras/mini-os/mm.c:72-91 | Sets exactly the bits of [first, first + count), across partial first, whole middle and partial last words |
| Bitmap.MapFree | xen-4.1.2/extras/mini-os/mm.c:94-113 | Clears exactly the bits of [first, first + count) |
| Bitmap.SetMasks | xen-4.1.2/extras/mini-os/mm.c:83-89 | The masks used for the first, last and only word select exactly the bits of the range |
| Bitmap.ClearMasks | xen-4.1.2/extras/mini-os/mm.c:105-111 | Likewise for clearing |
| BuddyTheory.FreeBlockIsInsideAChunk | xen-4.1.2/extras/mini-os/mm.c:258-271 | In a coalesced tiling every aligned, wholly free block lies inside one free chunk |
| BuddyTheory.ChunkIffMaximal | xen-4.1.2/extras/mini-os/mm.c:322-351 | A block is a free chunk if and only if it is free and its parent is not |
| BuddyTheory.ChunksDeterminedByFreePages | xen-4.1.2/extras/mini-os/mm.c:232-360 | Two coalesced tilings of the same free pages are equal: history does not matter |
| BuddyTheory.BuddyPageHeadsAChunk | xen-4.1.2/extras/mini-os/mm.c:324-340 | If the first page of the buddy is free, a chunk of at most that order starts there |
| BuddyTheory.AddChunk | xen-4.1.2/extras/mini-os/mm.c:353-360 | Adding a block whose buddy is not a chunk keeps the tiling and its coalescence |
| BuddyTheory.RemoveChunk | xen-4.1.2/extras/mini-os/mm.c:273-276 | Removing a chunk leaves a tiling of the remaining pages |
| FreeLists.PushKeepsLinked | xen-4.1.2/extras/mini-os/mm.c:353-360 | Linking a chunk at the head of its list keeps every next and pprev link of every list right |
| FreeLists.UnlinkKeepsLinked | xen-4.1.2/extras/mini-os/mm.c:346-348 | Unlinking through pprev removes exactly that chunk and keeps every other link |
| FreeLists.BlocksAreOnTheirOwnList | xen-4.1.2/extras/mini-os/mm.c:136-137 | A chunk is on the list of its own level, and its header says so |
| PageAllocator.BitmapReachesMaxPfn | xen-4.1.2/extras/mini-os/mm.c:216-226 | The word of frame max_pfn is inside the bitmap if and only if max_pfn % 32768 >= 8, and the bitmap ends at max_pfn if and only if the remainder is 0 |
| PageAllocator.BitmapTooShortExample | xen-4.1.2/extras/mini-os/mm.c:216-226 | With 32771 frames it is not |
| PageAllocator.TestsMaxPfn | xen-4.1.2/extras/mini-os/mm.c:322-340 | The only block whose release tests the bit of frame max_pfn is the largest aligned one that ends there |
| PageAllocator.MaxPfnTestedIff | xen-4.1.2/extras/mini-os/mm.c:322-340 | Some block of the pool tests that bit if and only if that block lies in the pool |
| PageAllocator.PowerOfTwoIsSafe | xen-4.1.2/extras/mini-os/mm.c:216-226 | With a power of two frames it does not |
| PageAllocator.CarveOrder | xen-4.1.2/extras/mini-os/mm.c:234-239 | The largest order that alignment and the remaining range allow |
| PageAllocator.CarveOne | xen-4.1.2/extras/mini-os/mm.c:232-253 | Cutting off the next chunk keeps the carved part coalesced |
| PageAllocator.Allocator.constructor | xen-4.1.2/extras/mini-os/mm.c:200-254 | The allocator starts valid with exactly the given pages free, less those of the bitmap, for every memory whose bitmap has every bit that will be tested |
| PageAllocator.Allocator.Carve | xen-4.1.2/extras/mini-os/mm.c:232-253 | The carving loop ends with the free range tiled by coalesced chunks on their lists |
| PageAllocator.Allocator.LinkChunk | xen-4.1.2/extras/mini-os/mm.c:286-294 | Writes a header and links it: the abstract lists gain that chunk at the front of its level |
| PageAllocator.Allocator.UnlinkChunk | xen-4.1.2/extras/mini-os/mm.c:346-348 | The abstract lists lose exactly that chunk |
| PageAllocator.Allocator.AllocPages | xen-4.1.2/extras/mini-os/mm.c:258-306 | Fails if and only if no aligned free block of the order exists; else the block is aligned, was free, exactly its pages become allocated, and it is cut from the front of a chunk as small as any that will do |
| PageAllocator.Allocator.NoLargeChunkNoBlock | xen-4.1.2/extras/mini-os/mm.c:265-271 | Empty lists from the order up mean no free block of the order |
| PageAllocator.Allocator.FindList | xen-4.1.2/extras/mini-os/mm.c:265-269 | The first list from the order up that has a chunk |
| PageAllocator.Allocator.LeastFits | xen-4.1.2/extras/mini-os/mm.c:265-274 | The chunk at its head is as small as any that holds a block of the order |
| PageAllocator.Allocator.SplitChunk | xen-4.1.2/extras/mini-os/mm.c:278-295 | Splitting keeps the lists a coalesced tiling of the free pages other than the block left |
| PageAllocator.Allocator.FreePages | xen-4.1.2/extras/mini-os/mm.c:308-362 | Exactly the pages of the block become free and the allocator stays valid, coalesced included |
| PageAllocator.Allocator.MergeBuddies | xen-4.1.2/extras/mini-os/mm.c:321-351 | The loop ends with a block that contains the freed one and whose buddy is not a chunk |
| PageAllocator.Allocator.MergeTestIsSound | xen-4.1.2/extras/mini-os/mm.c:327-340 | A clear bit at the buddy's first page means a real chunk header is there, of level at most the order; the level equals the order if and only if the buddy is a chunk |
| PageAllocator.Allocator.BuddyInMap | xen-4.1.2/extras/mini-os/mm.c:327-340 | The bit tested is inside the bitmap |
| PageAllocator.Allocator.SanityCheckPasses | xen-4.1.2/extras/mini-os/mm.c:428-443 | Every assertion of sanity_check holds of a valid allocator |
| PageAllocator.Allocator.Scribble | xen-4.1.2/extras/mini-os/mm.c:123-131 | A client may write anything into a page it holds, headers included, without harm |
| PageAllocator.Allocator.Run | xen-4.1.2/extras/mini-os/mm.c:258-362 | After any run of requests, releases and client writes, blocks held are disjoint and account for all missing pages; once all are returned the chunks are those of the start |
| PageAllocator.Acquire | xen-4.1.2/extras/mini-os/mm.c:297-299 | Handing out a free block keeps the ledger of held and free pages |
| PageAllocator.Release | xen-4.1.2/extras/mini-os/mm.c:308-315 | Taking a held block back keeps the ledger |
| Kexec.ChainStep | xen-4.1.2/stubdom/grub/kexec.c:96-106 | A new chain entry extends each chain by one step, still increasing and to the same end |
| Kexec.EndIsAbove | xen-4.1.2/stubdom/grub/kexec.c:103 | A chain followed to its end leaves the allocated part |
| Kexec.AllocationStep | xen-4.1.2/stubdom/grub/kexec.c:85-113 | One exchange keeps the map a permutation, every allocated page at its place, and every page not yet given out findable |
| Kexec.ExchangeStep | xen-4.1.2/stubdom/grub/kexec.c:58-75 | do_exchange keeps all of that for every page but the one exchanged away |
| Kexec.Builder.constructor | xen-4.1.2/stubdom/grub/kexec.c:50-52 | The domain's current map is arranged, with nothing allocated |
| Kexec.Builder.Allocate | xen-4.1.2/stubdom/grub/kexec.c:77-118 | A growing call gives each new position the frame of its page and leaves earlier ones alone; a shrinking one keeps the state arranged if and only if no chain of a page still to be handed out stops at a dropped position |
| Kexec.ShrinkIff | xen-4.1.2/stubdom/grub/kexec.c:82-84 | Cutting the chains short keeps every page findable if and only if none stops in the part dropped |
| Kexec.ShrinkLosesAFrame | xen-4.1.2/stubdom/grub/kexec.c:82-117 | Two pages, one backed, shrunk to nothing and grown again: a frame appears twice and another is gone |
| Kexec.Builder.BackOne | xen-4.1.2/stubdom/grub/kexec.c:85-113 | One iteration, with the position found by the chain |
| Kexec.Builder.Locate | xen-4.1.2/stubdom/grub/kexec.c:96-103 | The search ends, at the position that holds the page's frame now |
| Kexec.Builder.FindFrame | xen-4.1.2/stubdom/grub/kexec.c:63-66 | The position that holds a frame; the assertion after it holds |
| Kexec.Builder.Exchange | xen-4.1.2/stubdom/grub/kexec.c:58-75 | Brings the frame to the target; every position other than the two keeps its frame |
| Kexec.UpdatesInvert | xen-4.1.2/stubdom/grub/kexec.c:291-302 | Updating the entries of moved pages makes the old inverse map the inverse of the new map |
| Kexec.Builder.BuildUpdates | xen-4.1.2/stubdom/grub/kexec.c:291-302 | The list has one update per moved page, and applying it gives the inverse of the frame map, leaving foreign frames alone |
| Kexec.Builder.FillUpdates | xen-4.1.2/stubdom/grub/kexec.c:296-302 | The second loop fills exactly the counted entries |
| Kexec.BuildImage | xen-4.1.2/stubdom/grub/kexec.c:77-118 | Any series of growing allocations backs the pages in order |
| Kexec.MoveOwnFrame | xen-4.1.2/stubdom/grub/kexec.c:211-219 | Moving a frame the domain uses disturbs no page that is still to be given out |
| Kexec.MoveOwnFrames | xen-4.1.2/stubdom/grub/kexec.c:211-219 | Console, xenstore and boot frames end at their places |
| Kexec.Rearrange | xen-4.1.2/stubdom/grub/kexec.c:211-302 | The whole sequence: permutation, every page in place, and updates that invert it |
| Rijndael.AesParamsAreLawful | xen-4.1.2/tools/ioemu-qemu-xen/aes.c:52-64 | Bytes with exclusive or, doubling in the AES field and any invertible S-box satisfy the laws used |
| Rijndael.UnmixMix | xen-4.1.2/tools/ioemu-qemu-xen/aes.c:52-64 | InvMixColumn undoes MixColumn, from the product of the two coefficient matrices |
| Rijndael.UnmixAdds | xen-4.1.2/tools/ioemu-qemu-xen/aes.c:859-881 | InvMixColumn distributes over addition |
| Aes.EncRoundIsRound | xen-4.1.2/tools/ioemu-qemu-xen/aes.c:987-1042 | A table-driven round is SubBytes, ShiftRows, MixColumns, AddRoundKey (section 5.1 of FIPS 197) |
| Aes.DecRoundIsRound | xen-4.1.2/tools/ioemu-qemu-xen/aes.c:1178-1233 | A table-driven decryption round is a round of the equivalent inverse cipher (section 5.3.5 of FIPS 197) |
| Aes.FinalIsFinal | xen-4.1.2/tools/ioemu-qemu-xen/aes.c:1044-1076 | The last round is the round without MixColumns |
| Aes.LastIsMasked | xen-4.1.2/tools/ioemu-qemu-xen/aes.c:1044-1076 | A column of the last round is the sum of four masked lookups and a key word |
| Aes.UndoRound | xen-4.1.2/tools/ioemu-qemu-xen/aes.c:1178-1233 | A decryption round with the transformed key undoes the matching encryption round |
| Aes.UndoFinal | xen-4.1.2/tools/ioemu-qemu-xen/aes.c:1092-1101 | The first decryption steps undo the last encryption round |
| Aes.UndoFirst | xen-4.1.2/tools/ioemu-qemu-xen/aes.c:1235-1267 | The last decryption steps undo the first key addition and round |
| AesBlock.BlockRoundTrip | xen-4.1.2/tools/ioemu-qemu-xen/aes.c:891-1267 | With a decryption schedule for the keys, DecBlock inverts EncBlock |
| AesBlock.EncBlockIsCipher | xen-4.1.2/tools/ioemu-qemu-xen/aes.c:891-1076 | The block function is the cipher of section 5.1 of FIPS 197 |
| AesKeys.RconBytes | xen-4.1.2/tools/ioemu-qemu-xen/aes.c:728-732 | The round constants are the powers of x |
| AesKeys.LookupsAreSubWord | xen-4.1.2/tools/ioemu-qemu-xen/aes.c:765-770 | Four masked lookups added to a word are SubWord of RotWord, or SubWord, added to it |
| AesKeys.WordOps.Expand128 | xen-4.1.2/tools/ioemu-qemu-xen/aes.c:762-779 | The 128-bit loop computes the key expansion of section 5.2 of FIPS 197, word by word |
| AesKeys.WordOps.Expand192 | xen-4.1.2/tools/ioemu-qemu-xen/aes.c:780-802 | Likewise for 192 bits |
| AesKeys.WordOps.Expand256 | xen-4.1.2/tools/ioemu-qemu-xen/aes.c:803-832 | Likewise for 256 bits, with the extra substitution |
| AesKeys.SetEncryptKey | xen-4.1.2/tools/ioemu-qemu-xen/aes.c:737-833 | Error for other key lengths; else nk + 6 rounds, and every word of the schedule by its bytes: the user key's four bytes; at multiples of nk the word nk before, added to the substituted bytes of the word before, rotated, and to the power of x; halfway through 256-bit groups substituted only; else the sum of the two words |
| AesKeys.ExpansionIsSchedule | xen-4.1.2/tools/ioemu-qemu-xen/aes.c:764-832 | The expansion of section 5.2 of FIPS 197 is that schedule of bytes |
| AesKeys.ReverseKeys | xen-4.1.2/tools/ioemu-qemu-xen/aes.c:852-858 | The swapping loop reverses the order of the round keys in place |
| AesKeys.TransformKeys | xen-4.1.2/tools/ioemu-qemu-xen/aes.c:859-882 | Every round key but the first and last is transformed |
| AesKeys.UnmixWordIs | xen-4.1.2/tools/ioemu-qemu-xen/aes.c:862-866 | Td of Te4 of a word is InvMixColumn of it |
| AesKeys.ScheduleFromLoops | xen-4.1.2/tools/ioemu-qemu-xen/aes.c:852-882 | The two loops together give the decryption schedule |
| AesKeys.SetDecryptKey | xen-4.1.2/tools/ioemu-qemu-xen/aes.c:838-884 | The schedule of AES_set_decrypt_key is the decryption schedule of the expanded key |
| AesKeys.ExpansionUnique | xen-4.1.2/tools/ioemu-qemu-xen/aes.c:737-833 | A user key has one expansion |
| AesCrypt.EncryptState | xen-4.1.2/tools/ioemu-qemu-xen/aes.c:982-1076 | The two-rounds-at-a-time loop computes the block function |
| AesCrypt.DecryptState | xen-4.1.2/tools/ioemu-qemu-xen/aes.c:1173-1267 | Likewise for decryption |
| AesCrypt.RoundLoop | xen-4.1.2/tools/ioemu-qemu-xen/aes.c:986-1042 | The alternating loop applies every inner round once, in order |
| AesCrypt.AesChainIsLawful | xen-4.1.2/tools/ioemu-qemu-xen/aes.c:1271-1320 | AES with matching schedules is what CBC needs |
| AesCrypt.Schedules | xen-4.1.2/tools/ioemu-qemu-xen/aes.c:737-884 | The two key functions on the same user key give matching schedules |
| AesCrypt.EncryptThenDecrypt | xen-4.1.2/tools/ioemu-qemu-xen/aes.c:737-1320 | For every key of 128, 192 or 256 bits, data length and initial vector, encrypting in place and decrypting in place gives the data back |
| AesCrypt.BlockThereAndBack | xen-4.1.2/tools/ioemu-qemu-xen/aes.c:737-1267 | For every key of 128, 192 or 256 bits and every block, the two key functions and the two round loops give the block back |
| AesBytes.EncryptBlock | xen-4.1.2/tools/ioemu-qemu-xen/aes.c:891-1076 | AES_encrypt on byte buffers, byte by byte and without tables: the first key addition, each inner round with row i taken from i columns on, substituted and mixed by 2, 3, 1 and 1, the last round without mixing, each with its four words of the schedule in order |
| AesBytes.BlockIsEncryption | xen-4.1.2/tools/ioemu-qemu-xen/aes.c:982-1076 | The table-driven block operation computes those bytes, for any number of rounds |
| AesBytes.ChainedBlocks | xen-4.1.2/tools/ioemu-qemu-xen/aes.c:1271-1301 | It is the block function that AES_cbc_encrypt chains |
| Cbc.Chain.EncryptBuffer | xen-4.1.2/tools/ioemu-qemu-xen/aes.c:1282-1301 | Each block of output is the encryption of the input's bytes added to the block of output before it, or to the initial vector, bytes past the data being those of that block; input and output may be one buffer; ivec ends as the last ciphertext block |
| Cbc.Chain.DecryptBuffer | xen-4.1.2/tools/ioemu-qemu-xen/aes.c:1302-1320 | Each byte of output is that of the decrypted block added to the byte one block back in the ciphertext, or in the initial vector; exactly the first length bytes are written; ivec ends as the last ciphertext block, or after a partial block as the decrypted block |
| Cbc.Chain.EncryptionIsChained | xen-4.1.2/tools/ioemu-qemu-xen/aes.c:1282-1301 | The recursive ciphertext satisfies the law of section 6.2 of SP 800-38A, block by block |
| Cbc.Chain.DecryptionIsChained | xen-4.1.2/tools/ioemu-qemu-xen/aes.c:1302-1320 | Likewise the plaintext, byte by byte |
| Cbc.PaddedRoundsUp | xen-4.1.2/tools/ioemu-qemu-xen/aes.c:1293-1301 | The ciphertext is the whole blocks that just hold the data |
| Cbc.Chain.RoundTrip | xen-4.1.2/tools/ioemu-qemu-xen/aes.c:1271-1320 | Decrypting what was encrypted returns the data, for every length |
| Cbc.Chain.ThereAndBack | xen-4.1.2/tools/ioemu-qemu-xen/aes.c:1271-1320 | The same through the two loops, in one buffer |
| SectorCipher.SectorRoundTrip | xen-4.1.2/tools/ioemu-qemu-xen/block-qcow.c:278-298 | A sector enciphered with its own initial vector deciphers to itself |
| SectorCipher.CipherCodecIsLawful | xen-4.1.2/tools/ioemu-qemu-xen/block-qcow.c:278-298 | So encrypt_sectors over AES satisfies what both image drivers demand of encryption |
| SectorCipher.CodecIsChained | xen-4.1.2/tools/ioemu-qemu-xen/block-qcow.c:278-298 | Sector g is chained from the vector of g, both ways |
| SectorCipher.IvecByte | xen-4.1.2/tools/ioemu-qemu-xen/block-qcow.c:290-291 | Byte k of that vector is byte k of the sector number, little endian, for k below 8, and zero from there on |
| SectorCipher.VectorsDiffer | xen-4.1.2/tools/ioemu-qemu-xen/block-qcow.c:290-291 | Different sector numbers of 64 bits have different vectors |
| SectorCipher.EncryptSectors | xen-4.1.2/tools/ioemu-qemu-xen/block-qcow.c:278-298 | The loop enciphers, or deciphers, every sector with the vector of its own number, block by block |
| L2Cache.Cache.Seek | xen-4.1.2/tools/ioemu-qemu-xen/block-qcow2.c:488-504 | Finds the slot of a table if and only if there is one; counts stay below the maximum |
| L2Cache.Cache.HalveCounts | xen-4.1.2/tools/ioemu-qemu-xen/block-qcow2.c:494-499 | The hit that would reach the maximum is counted and every count is halved |
| L2Cache.Cache.Victim | xen-4.1.2/tools/ioemu-qemu-xen/block-qcow2.c:402-418 | A slot with the least count |
| L2Cache.Cache.Fill | xen-4.1.2/tools/ioemu-qemu-xen/block-qcow2.c:529-536 | Exactly one slot changes, and no offset is cached twice |
| L2Cache.Cache.Reset | xen-4.1.2/tools/ioemu-qemu-xen/block-qcow2.c:393-400 | No table is cached |
| Qcow2Tables.Pass.EntryVisitedOnce | xen-4.1.2/tools/ioemu-qemu-xen/block-qcow2.c:1707-1737 | A data cluster is counted once in a walk, so the count compared with 1 is the final one |
| Qcow2Tables.Pass.TableVisitedOnce | xen-4.1.2/tools/ioemu-qemu-xen/block-qcow2.c:1743-1755 | Likewise for the cluster of a level-2 table |
| Qcow2Refcounts.Refcounts.UpdateCluster | xen-4.1.2/tools/ioemu-qemu-xen/block-qcow2.c:2341-2402 | The new count, or EINVAL with nothing changed if it would leave 0 to 0xffff; the free index falls back to a freed cluster |
| Qcow2Refcounts.Refcounts.UpdateRange | xen-4.1.2/tools/ioemu-qemu-xen/block-qcow2.c:2404-2423 | Exactly the counts of the clusters of the range change, each by one addend, but for those that would leave 0 to 0xffff |
| Qcow2Refcounts.Refcounts.FindFree | xen-4.1.2/tools/ioemu-qemu-xen/block-qcow2.c:2200-2218 | The search ends with consecutive unused clusters |
| Qcow2Refcounts.Refcounts.Alloc | xen-4.1.2/tools/ioemu-qemu-xen/block-qcow2.c:2220-2227 | Unused clusters, each counted once now, no other count changed |
| Qcow2Refcounts.Refcounts.FreeAll | xen-4.1.2/tools/ioemu-qemu-xen/block-qcow2.c:918-919 | Each cluster of the list loses as many references as it is listed |
| Qcow2Refcounts.Refcounts.WalkTree | xen-4.1.2/tools/ioemu-qemu-xen/block-qcow2.c:1666-1775 | update_snapshot_refcount adds the addend once per reference of the tree, to every count that stays in range, and every flag of the tree ends equal to "the final count is one" |
| Qcow2Refcounts.Refcounts.WalkTable | xen-4.1.2/tools/ioemu-qemu-xen/block-qcow2.c:1707-1737 | The inner loop does so for one level-2 table |
| Qcow2Refcounts.Refcounts.WalkEntry | xen-4.1.2/tools/ioemu-qemu-xen/block-qcow2.c:1699-1755 | One level-1 entry: its table, then the table's own cluster |
| Qcow2Layout.ActivePassKeeps | xen-4.1.2/tools/ioemu-qemu-xen/block-qcow2.c:1666-1775 | A walk over the active tree changes no cluster's references, of any kind |
| Qcow2Layout.SnapPassKeeps | xen-4.1.2/tools/ioemu-qemu-xen/block-qcow2.c:1666-1775 | Likewise for a walk over a snapshot's tree |
| Qcow2Layout.PassSetsFlags | xen-4.1.2/tools/ioemu-qemu-xen/block-qcow2.c:1728-1755 | After a walk over the active tree every COPIED flag agrees with the counts, whatever it was |
| Qcow2Layout.Layout.ActiveOnly | xen-4.1.2/tools/ioemu-qemu-xen/block-qcow2.c:2453-2535 | With exact counts, a cluster counted once and used by the active tree is in no snapshot |
| Qcow2Snapshots.CreateIsSound | xen-4.1.2/tools/ioemu-qemu-xen/block-qcow2.c:1990-2016 | A walk adding one and a copy of the level-1 table in new clusters give an exact, correctly flagged layout |
| Qcow2Snapshots.CreateIff | xen-4.1.2/tools/ioemu-qemu-xen/block-qcow2.c:1990-2016 | They do so if and only if no cluster of the active tree has a count of 0xffff; otherwise a cluster has more references than a count can say |
| Qcow2Snapshots.CreateOverfills | xen-4.1.2/tools/ioemu-qemu-xen/block-qcow2.c:2389-2392 | The second half of this |
| Qcow2Snapshots.DeleteIsSound | xen-4.1.2/tools/ioemu-qemu-xen/block-qcow2.c:2084-2097 | Walk down over the snapshot, redo the active flags, free its table: exact and correctly flagged |
| Qcow2Snapshots.SnapListMoves | xen-4.1.2/tools/ioemu-qemu-xen/block-qcow2.c:1866-1911 | Moving the snapshot list to new clusters keeps the layout sound |
| Qcow2Goto.GrowthEnds | xen-4.1.2/tools/ioemu-qemu-xen/block-qcow2.c:434-439 | The loop that looks for the new size ends if and only if the table has an entry: from size 0 it does not |
| Qcow2Goto.NewSize | xen-4.1.2/tools/ioemu-qemu-xen/block-qcow2.c:434-439 | From a size above 0 it gives the first size tried that is enough, each being one and a half times the one before, rounded up |
| Qcow2Goto.GrownIsSound | xen-4.1.2/tools/ioemu-qemu-xen/block-qcow2.c:426-474 | Moving the level-1 table, with unmapped entries added, to new clusters and giving back the old ones keeps the layout sound |
| Qcow2Goto.EmptiedIsSound | xen-4.1.2/tools/ioemu-qemu-xen/block-qcow2.c:2042-2043 | With its references taken away, the layout is sound as if the active table were empty |
| Qcow2Goto.CutIsSound | xen-4.1.2/tools/ioemu-qemu-xen/block-qcow2.c:2048 | Making the empty table shorter keeps the layout sound, the surplus clusters being lost |
| Qcow2Goto.RestoredIff | xen-4.1.2/tools/ioemu-qemu-xen/block-qcow2.c:2050-2062 | Putting the snapshot's entries in and adding their references keeps the layout sound if and only if they can all be counted |
| Qcow2Goto.ReturnIff | xen-4.1.2/tools/ioemu-qemu-xen/block-qcow2.c:2042-2062 | That can be said of the layout before anything is done |
| Qcow2Goto.InFileIff | xen-4.1.2/tools/ioemu-qemu-xen/block-qcow2.c:2045-2057 | The image that the file describes is sound if and only if no entry of its table past the end of the one in memory is mapped |
| Qcow2Goto.LostIsLeaked | xen-4.1.2/tools/ioemu-qemu-xen/block-qcow2.c:2537-2588 | Every count is the number of references, and one more for lost clusters; check_refcounts is content if and only if none is lost |
| Qcow2Cow.CopyIsSound | xen-4.1.2/tools/ioemu-qemu-xen/block-qcow2.c:551-600 | Giving back a shared level-2 table and linking a private copy keeps the layout sound |
| Qcow2Cow.CopyTree | xen-4.1.2/tools/ioemu-qemu-xen/block-qcow2.c:574-590 | The private copy changes no lookup of the active image |
| Qcow2Cow.CopySnaps | xen-4.1.2/tools/ioemu-qemu-xen/block-qcow2.c:551-600 | Nor of any snapshot, nor any snapshot's references |
| Qcow2Link.LinkedCount | xen-4.1.2/tools/ioemu-qemu-xen/block-qcow2.c:905-911 | How linking a run changes a table's references to each cluster |
| Qcow2Link.LinkEntries | xen-4.1.2/tools/ioemu-qemu-xen/block-qcow2.c:905-911 | The loop links the run and lists exactly the mapped entries it replaces |
| Qcow2Link.RunIsSound | xen-4.1.2/tools/ioemu-qemu-xen/block-qcow2.c:872-925 | Linking a fresh run and giving back what it replaces keeps the layout sound |
| Qcow2Link.RunWalks | xen-4.1.2/tools/ioemu-qemu-xen/block-qcow2.c:905-916 | Exactly the lookups of the run change |
| Qcow2Link.RunTree | xen-4.1.2/tools/ioemu-qemu-xen/block-qcow2.c:905-916 | And none through a snapshot |
| Qcow2Runs.CountContiguous | xen-4.1.2/tools/ioemu-qemu-xen/block-qcow2.c:607-621 | The longest stretch of entries that follow on from the first, flags compared or not |
| Qcow2Runs.CountFree | xen-4.1.2/tools/ioemu-qemu-xen/block-qcow2.c:623-631 | The longest stretch of unmapped entries |
| Qcow2Runs.SelectRun | xen-4.1.2/tools/ioemu-qemu-xen/block-qcow2.c:976-994 | At least one entry, none of them COPIED, stopping at a mapped entry only |
| Qcow2Runs.TableRunIsSectorRun | xen-4.1.2/tools/ioemu-qemu-xen/block-qcow2.c:649-722 | A run of entries is a run of sectors, each where its own walk says |
| Qcow2Content.WalkInjective | xen-4.1.2/tools/ioemu-qemu-xen/block-qcow2.c:2453-2535 | Two guest clusters never share a host cluster |
| Qcow2Overlay.FreshWrite | xen-4.1.2/tools/ioemu-qemu-xen/block-qcow2.c:872-1012 | Written, filled and linked, a fresh run reads as the old content overlaid with the new sectors, and every snapshot reads as before |
| Qcow2Overlay.OwnWrite | xen-4.1.2/tools/ioemu-qemu-xen/block-qcow2.c:961-969 | A write in place to COPIED clusters does the same |
| Qcow2Overlay.TailEnds | xen-4.1.2/tools/ioemu-qemu-xen/block-qcow2.c:886-899 | The copied tail ends exactly with the last allocated cluster |
| Qcow2Create.CreateImage | xen-4.1.2/tools/ioemu-qemu-xen/block-qcow2.c:1468-1556 | A new image of any size is exact and correctly flagged, with nothing mapped, and sound if its level-1 table has an entry |
| Qcow2Driver.Driver.constructor | xen-4.1.2/tools/ioemu-qemu-xen/block-qcow2.c:186-289 | Opening a sound image gives a valid driver |
| Qcow2Driver.Driver.L2Load | xen-4.1.2/tools/ioemu-qemu-xen/block-qcow2.c:516-539 | The slot holds the table of the file, and every cached table stays equal to the file's |
| Qcow2Driver.Driver.GetClusterOffset | xen-4.1.2/tools/ioemu-qemu-xen/block-qcow2.c:649-722 | A non-empty run within the request in which every sector lies where its own walk says, or all are unmapped |
| Qcow2Driver.Driver.Read | xen-4.1.2/tools/ioemu-qemu-xen/block-qcow2.c:1090-1131 | Ends; each sector is the backing image's if its own walk leads nowhere, and else what the file holds where the walk leads, deciphered under its own sector number if the image is encrypted |
| Qcow2Driver.Driver.L2Allocate | xen-4.1.2/tools/ioemu-qemu-xen/block-qcow2.c:551-600 | The level-1 entry leads to a COPIED table equal to the old one, or of zeroes, in file and cache |
| Qcow2Driver.Driver.TakeTable | xen-4.1.2/tools/ioemu-qemu-xen/block-qcow2.c:787-795 | One reference to the shared table given back, one unused cluster taken |
| Qcow2Driver.Driver.GrowL1Table | xen-4.1.2/tools/ioemu-qemu-xen/block-qcow2.c:426-474 | A table long enough, with unmapped entries added, in clusters that were unused; the old ones given back; nothing at all if it was long enough |
| Qcow2Driver.Driver.Extend | xen-4.1.2/tools/ioemu-qemu-xen/block-qcow2.c:774-779 | Growing keeps the driver valid and changes no lookup, of the active image or of a snapshot |
| Qcow2Driver.Driver.GetClusterTable | xen-4.1.2/tools/ioemu-qemu-xen/block-qcow2.c:763-808 | For any index, growing the level-1 table if need be, the table under the entry is private afterwards, reads unchanged, counts exact |
| Qcow2Driver.Driver.AllocClusterOffset | xen-4.1.2/tools/ioemu-qemu-xen/block-qcow2.c:940-1012 | Either a run of the active image's own COPIED clusters, or unused clusters for entries none of which is COPIED; the sectors given end with the clusters or the request |
| Qcow2Driver.Driver.ChooseRun | xen-4.1.2/tools/ioemu-qemu-xen/block-qcow2.c:955-1002 | The choice between the two |
| Qcow2Driver.Driver.CopySectors | xen-4.1.2/tools/ioemu-qemu-xen/block-qcow2.c:368-391 | What the active image reads is written, encrypted, into the run |
| Qcow2Driver.Driver.FillRun | xen-4.1.2/tools/ioemu-qemu-xen/block-qcow2.c:884-899 | Head and tail copies fill the whole run with what is to be read there |
| Qcow2Driver.Driver.LinkRun | xen-4.1.2/tools/ioemu-qemu-xen/block-qcow2.c:900-925 | The run is linked, replaced clusters are given back, counts are exact again |
| Qcow2Driver.Driver.WriteStep | xen-4.1.2/tools/ioemu-qemu-xen/block-qcow2.c:1142-1167 | One round writes at least one sector, overlays exactly those, and keeps snapshots and counts |
| Qcow2Driver.Driver.Write | xen-4.1.2/tools/ioemu-qemu-xen/block-qcow2.c:1133-1171 | At any sector, past the level-1 table too: the active image reads as old content overlaid with the written sectors; every snapshot reads as before; the layout stays sound; and in the file, where the new tables lead, each written sector is its value enciphered under its own number if the image is encrypted, while any other is where and what it was or has been copied, enciphered likewise |
| Qcow2Stored.FreshStored | xen-4.1.2/tools/ioemu-qemu-xen/block-qcow2.c:368-391 | A write into new clusters: written and copied sectors are stored enciphered where the new entries lead, the rest untouched |
| Qcow2Stored.OwnStored | xen-4.1.2/tools/ioemu-qemu-xen/block-qcow2.c:1153-1157 | A write in place: written sectors are stored enciphered, the rest of the file untouched |
| Qcow2Stored.StoredChain | xen-4.1.2/tools/ioemu-qemu-xen/block-qcow2.c:1142-1169 | One round of a write after another |
| Qcow2Stored.StoredInFile | xen-4.1.2/tools/ioemu-qemu-xen/block-qcow2.c:1153-1157 | Where and how a sector is stored, by indices: entry (g / cs) % l2Size of the table under level-1 entry (g / cs) / l2Size, sector g % cs of that cluster |
| Qcow2Stored.ContentOfFile | xen-4.1.2/tools/ioemu-qemu-xen/block-qcow2.c:1098-1124 | What a sector reads as, by the same indices |
| Qcow2Driver.Driver.WriteAll | xen-4.1.2/tools/ioemu-qemu-xen/block-qcow2.c:1133-1171 | For every sequence of writes each sector reads as last written, and no snapshot changes |
| Qcow2Driver.WriteEnd | xen-4.1.2/tools/ioemu-qemu-xen/block-qcow2.c:1143-1147 | A round ends with the request or, with encryption, after 32 clusters, whichever is first |
| Qcow2Driver.Driver.UpdateSnapshotRefcount | xen-4.1.2/tools/ioemu-qemu-xen/block-qcow2.c:1666-1775 | The walk on a level-1 table in the file or on the one in memory, after emptying the cache |
| Qcow2Driver.Driver.WriteSnapshots | xen-4.1.2/tools/ioemu-qemu-xen/block-qcow2.c:1847-1914 | The list moves to as many new clusters as its size takes, and a sound layout stays sound |
| Qcow2Driver.ListSize | xen-4.1.2/tools/ioemu-qemu-xen/block-qcow2.c:1857-1866 | The aligned size of the list |
| Qcow2Driver.RecordFits | xen-4.1.2/tools/ioemu-qemu-xen/block-qcow2.c:1857-1866 | Each record starts at the first multiple of 8 after the one before, and takes 40 bytes, its id and its name |
| Qcow2Driver.Driver.SnapshotCreate | xen-4.1.2/tools/ioemu-qemu-xen/block-qcow2.c:1960-2027 | ENOENT for a taken id; else one more snapshot that reads as the active image, everything else reading as before, and sound if and only if no cluster of the active tree has a count of 0xffff |
| Qcow2Driver.Driver.SnapshotGoto | xen-4.1.2/tools/ioemu-qemu-xen/block-qcow2.c:2030-2070 | ENOENT if not found; else, whatever the level-1 sizes, the active image reads as the snapshot and the snapshots as before; sound if and only if the references can be counted; the file sound if and only if no mapped entry is dropped; clusters lost, by a snapshot no longer than the active table, if and only if it takes fewer |
| Qcow2Driver.Driver.Restore | xen-4.1.2/tools/ioemu-qemu-xen/block-qcow2.c:2042-2062 | The four steps of it together |
| Qcow2Driver.Driver.Replace | xen-4.1.2/tools/ioemu-qemu-xen/block-qcow2.c:2045-2060 | The level-1 table grown or cut to the size of the snapshot, with its entries |
| Qcow2Driver.Driver.SnapshotDelete | xen-4.1.2/tools/ioemu-qemu-xen/block-qcow2.c:2072-2105 | ENOENT if not found; else sound, that snapshot gone, the active image and the other snapshots reading as before |
| Qcow2Ids.IndexOfId | xen-4.1.2/tools/ioemu-qemu-xen/block-qcow2.c:1932-1942 | The first snapshot with the id |
| Qcow2Ids.IndexOf | xen-4.1.2/tools/ioemu-qemu-xen/block-qcow2.c:1944-1957 | A snapshot with that id, else the first with that name, if there is one |
| Qcow2Ids.PrintedReads | xen-4.1.2/tools/ioemu-qemu-xen/block-qcow2.c:1925-1929 | A number printed as an id reads back |
| Qcow2Ids.PrintedExamples | xen-4.1.2/tools/ioemu-qemu-xen/block-qcow2.c:1929 | Printing is in base ten, with a sign |
| Qcow2Ids.ReadExample | xen-4.1.2/tools/ioemu-qemu-xen/block-qcow2.c:1925 | Reading skips blanks, takes a sign, and stops at the first character that is not a digit |
| Qcow2Ids.NegativeExample | xen-4.1.2/tools/ioemu-qemu-xen/block-qcow2.c:1925 | A minus sign wraps around |
| Qcow2Ids.NewIdIsFresh | xen-4.1.2/tools/ioemu-qemu-xen/block-qcow2.c:1916-1930 | A made-up id is not taken, except if and only if some id is the largest int and another is what the sum wraps around to |
| Qcow2Ids.FindNewSnapshotId | xen-4.1.2/tools/ioemu-qemu-xen/block-qcow2.c:1916-1930 | The id is one more than the largest number the ids read as, or than 0 if none is more, wrapping around |
| Qcow2Session.CountBound | xen-4.1.2/tools/ioemu-qemu-xen/block-qcow2.c:1666-1775 | No cluster of a tree has more references than there are snapshots and one |
| Qcow2Session.CreateFits | xen-4.1.2/tools/ioemu-qemu-xen/block-qcow2.c:1960-2027 | So below 65534 snapshots one more can be created |
| Qcow2Session.GotoFits | xen-4.1.2/tools/ioemu-qemu-xen/block-qcow2.c:2030-2070 | And up to 65534 any can be applied |
| Qcow2Session.Do | xen-4.1.2/tools/ioemu-qemu-xen/block-qcow2.c:1133-2105 | One operation shows what it does to an active image and whole copies of it, and keeps the driver valid if and only if the references it adds can be counted |
| Qcow2Session.DoRead | xen-4.1.2/tools/ioemu-qemu-xen/block-qcow2.c:1090-1131 | A read returns what the simple form shows and keeps it |
| Qcow2Session.DoAll | xen-4.1.2/tools/ioemu-qemu-xen/block-qcow2.c:1133-2105 | Any run of operations, up to the first whose references cannot be counted, keeps the driver valid and shows what the run does to the simple form: soundness, the active content and the content of every kept snapshot; up to 65534 snapshots at a time it is the whole run |
| Qcow2Session.Ask | xen-4.1.2/tools/ioemu-qemu-xen/block-qcow2.c:1960-2070 | Whether the references of an operation can be counted, found from the counts and tables before it |
| Qcow2Session.FewAreCountable | xen-4.1.2/tools/ioemu-qemu-xen/block-qcow2.c:1960-2070 | With no more than 65534 snapshots before and after an operation they can |
| Qcow2Session.Session | xen-4.1.2/tools/ioemu-qemu-xen/block-qcow2.c:1133-2105 | From a new image, over its backing image |
| Qcow2Examples.CheckedIsNotSound | xen-4.1.2/tools/ioemu-qemu-xen/block-qcow2.c:2453-2588 | An image with two guest clusters in one host cluster that check_refcounts accepts |
| Qcow2Examples.GotoLeavesEntry | xen-4.1.2/tools/ioemu-qemu-xen/block-qcow2.c:2045-2057 | A sound image and a snapshot to go to that leaves a mapped entry in the file past the end |
| Qcow2Examples.CountRunsOut | xen-4.1.2/tools/ioemu-qemu-xen/block-qcow2.c:2389-2392 | A sound image with any number of snapshots up to 65534, from which one more can be created exactly below that |
| Qcow1Image.TableKeepsSound | xen-4.1.2/tools/ioemu-qemu-xen/block-qcow.c:327-341 | A table added at the end of the file overlaps nothing in use |
| Qcow1Image.ClusterKeepsSound | xen-4.1.2/tools/ioemu-qemu-xen/block-qcow.c:399-434 | Nor does a cluster |
| Qcow1Image.DisjointRanges | xen-4.1.2/tools/ioemu-qemu-xen/block-qcow.c:313-437 | Distinct guest clusters have disjoint host ranges |
| Qcow1Driver.FlatIff | xen-4.1.2/tools/ioemu-qemu-xen/block-qcow.c:548-581 | A write behaves as on a flat array if and only if the sectors it exposes read as zeroes in the backing image |
| Qcow1Driver.FlatWhenSafe | xen-4.1.2/tools/ioemu-qemu-xen/block-qcow.c:829-834 | Clusters of one sector, or a backing image of zeroes, are enough |
| Qcow1Driver.PartialWriteHidesBacking | xen-4.1.2/tools/ioemu-qemu-xen/block-qcow.c:399-427 | With clusters of two sectors and a backing image, writing one sector hides the other |
| Qcow1Driver.ClusterWritten | xen-4.1.2/tools/ioemu-qemu-xen/block-qcow.c:555-578 | Writing into a prepared cluster gives exactly the specified content |
| Qcow1Driver.ClusterStored | xen-4.1.2/tools/ioemu-qemu-xen/block-qcow.c:555-578 | What one round leaves in the file, for every sector of the image |
| Qcow1Driver.StoredChain | xen-4.1.2/tools/ioemu-qemu-xen/block-qcow.c:555-578 | One round of a write after another |
| Qcow1Driver.StoredInFile | xen-4.1.2/tools/ioemu-qemu-xen/block-qcow.c:565-572 | Where and how a sector is stored, by the indices into the two levels of tables |
| Qcow1Driver.ContentOfFile | xen-4.1.2/tools/ioemu-qemu-xen/block-qcow.c:594-632 | What a sector reads as, by the same indices |
| Qcow1Driver.Driver.constructor | xen-4.1.2/tools/ioemu-qemu-xen/block-qcow.c:803-861 | A new image reads as its backing image |
| Qcow1Driver.Driver.Load | xen-4.1.2/tools/ioemu-qemu-xen/block-qcow.c:342-375 | Hit or miss, the slot holds the table of the file, and all cached tables equal the file's |
| Qcow1Driver.Driver.AddTable | xen-4.1.2/tools/ioemu-qemu-xen/block-qcow.c:327-341 | A table of zeroes at the end of the file, in memory and in the file |
| Qcow1Driver.Driver.AddCluster | xen-4.1.2/tools/ioemu-qemu-xen/block-qcow.c:399-434 | A cluster at the end of the file, linked in cache and file |
| Qcow1Driver.Driver.FillCluster | xen-4.1.2/tools/ioemu-qemu-xen/block-qcow.c:405-423 | The sectors of a new cluster that will not be written decrypt to zeroes |
| Qcow1Driver.Driver.FindCluster | xen-4.1.2/tools/ioemu-qemu-xen/block-qcow.c:313-437 | Without allocation: the cluster the tables name, 0 if none |
| Qcow1Driver.Driver.AllocCluster | xen-4.1.2/tools/ioemu-qemu-xen/block-qcow.c:313-437 | With allocation: the cluster is mapped, other clusters and their data untouched |
| Qcow1Driver.Driver.Write | xen-4.1.2/tools/ioemu-qemu-xen/block-qcow.c:548-581 | Written sectors read back, exposed sectors read as zeroes, all others as before, through hits, evictions, new tables and partial clusters; in the file each written sector is its value enciphered under its own number if the image is encrypted, each exposed one zeroes likewise, and every other where and what it was |
| Qcow1Driver.Driver.Read | xen-4.1.2/tools/ioemu-qemu-xen/block-qcow.c:594-672 | Each sector is the backing image's if unmapped, and else what the file holds for it, deciphered under its own number if the image is encrypted; the alignment test never fails |
| EventChannels.StepKeeps | xen-4.1.2/extras/mini-os/hypervisor.c:39-122 | Every step of guest or hypervisor keeps: a pending unmasked port is covered by its selector bit, a callback's local word, an unmask in progress or a send in progress; and a set selector by the upcall flag or a step about to raise it or take it |
| EventChannels.ReadMaskKeeps | xen-4.1.2/extras/mini-os/hypervisor.c:61-68 | Leaving a word after the two separate reads drops no event |
| EventChannels.UnmaskKeeps | xen-4.1.2/extras/mini-os/hypervisor.c:97-116 | Unmasking loses no event whatever interrupts it; that it unmasks, and gets the event handled, is said of runs by `UnmaskUnmasks` and `UnmaskedIsHandled` |
| EventChannels.SendKeeps | xen-4.1.2/extras/mini-os/hypervisor.c:104-115 | A send in progress covers its port until its selector bit is set |
| EventChannels.InvOnRuns | xen-4.1.2/extras/mini-os/hypervisor.c:39-122 | The invariant holds in every state of every run |
| EventChannels.NoLostEvent | xen-4.1.2/extras/mini-os/hypervisor.c:39-122 | In a quiet state with no upcall due, every pending port is masked |
| EventChannels.SelectorLeadsToUpcall | xen-4.1.2/extras/mini-os/hypervisor.c:74-116 | In a quiet state a set selector means the callback will be entered |
| EventDelivery.UnmaskUnmasks | xen-4.1.2/extras/mini-os/hypervisor.c:97-102 | In every run, once a call of unmask_evtchn has returned, the port is not masked until it is masked again |
| EventDelivery.MaskMasks | xen-4.1.2/extras/mini-os/hypervisor.c:91-95 | A port that is masked stays so until unmask_evtchn clears its bit |
| EventDelivery.ClearClears | xen-4.1.2/extras/mini-os/hypervisor.c:118-122 | A port that is cleared is not pending until another event is sent |
| EventDelivery.SentIsHandled | xen-4.1.2/extras/mini-os/hypervisor.c:39-122 | An event that is sent is handled: in a quiet state with no upcall due, if the port is not masked, its handler has been entered since |
| EventDelivery.UnmaskedIsHandled | xen-4.1.2/extras/mini-os/hypervisor.c:97-116 | So is one that came while the port was masked, once the port is unmasked |
| EventDelivery.EnableDelivers | xen-4.1.2/extras/mini-os/include/x86/os.h:91-100 | local_irq_enable does not return while an upcall is due |
| EventDelivery.UnmaskDelivers | xen-4.1.2/extras/mini-os/hypervisor.c:104-115 | unmask_evtchn returns with its event not pending, or signalled by another, or with upcalls masked or none due |
| EventDelivery.UpcallDelivers | xen-4.1.2/extras/mini-os/hypervisor.c:39-72 | An upcall does not return while another is due; back in the thread, with no send in progress, every pending port is masked |
| EventDelivery.UpcallMaskRestored | xen-4.1.2/extras/mini-os/hypervisor.c:74-89 | If handlers leave it alone, the upcall mask is what the thread last asked for whenever the thread runs |
| EventDelivery.SendEnds | xen-4.1.2/extras/mini-os/hypervisor.c:39-122 | A send is over after at most three more steps of its own |
| EventDelivery.AloneEnds | xen-4.1.2/extras/mini-os/hypervisor.c:39-122 | Left alone, the guest makes no more steps than a measure of its state, so every call and upcall comes to an end |
| EventDelivery.AloneGoesOn | xen-4.1.2/extras/mini-os/hypervisor.c:39-122 | And it can make a step for as long as an activation is left |
| EventChannels.SharedInfo.DoHypervisorCallback | xen-4.1.2/extras/mini-os/hypervisor.c:39-72 | Undisturbed, the callback delivers every due event once, in increasing order of ports, and no other |
| EventChannels.SharedInfo.DeliverWord | xen-4.1.2/extras/mini-os/hypervisor.c:61-68 | The inner loop delivers the active events of one word |
| FreeIds.PushChain | xen-4.1.2/extras/mini-os/gnttab.c:49-50 | Pushing an id makes the links visit it first and then the others |
| FreeIds.PopChain | xen-4.1.2/extras/mini-os/gnttab.c:62-64 | Popping yields the first id visited, and the links visit the rest |
| FreeIds.IdList.Put | xen-4.1.2/extras/mini-os/netfront.c:71-75 | The array after add_id_to_freelist |
| FreeIds.IdList.Get | xen-4.1.2/extras/mini-os/netfront.c:77-82 | The array after get_id_from_freelist |
| FreeIds.IdList.Init | xen-4.1.2/extras/mini-os/netfront.c:330-335 | The initial loop puts every id on the list once |
| GrantTable.InitGnttab | xen-4.1.2/extras/mini-os/gnttab.c:176-187 | Every reference from 8 on is on the list and counted by the semaphore |
| GrantTable.StepKeeps | xen-4.1.2/extras/mini-os/gnttab.c:40-120 | Every step keeps list, semaphore and references consistent, and no BUG_ON fires |
| GrantTable.TakenOnce | xen-4.1.2/extras/mini-os/gnttab.c:55-71 | In every run, what a taker pops is a real reference, on the list, giving no access |
| GrantTable.Conserved | xen-4.1.2/extras/mini-os/gnttab.c:40-71 | In every run, list length is semaphore count plus takers between down and pop plus releasers between push and up, and the links visit exactly the unused references |
| GrantTable.MappedIsGranted | xen-4.1.2/extras/mini-os/gnttab.c:102-120 | In every run, a mapped entry is granted: the compare-and-exchange never releases one in use |
| GrantTable.GrantLasts | xen-4.1.2/extras/mini-os/gnttab.c:73-86 | In every run, access lasts as it was granted, read-only if so asked, until gnttab_end_access clears it |
| GrantTable.ClearLasts | xen-4.1.2/extras/mini-os/gnttab.c:115-118 | Once cleared, a reference allows nothing until it is granted again |
| GrantTable.MappedForWriting | xen-4.1.2/extras/mini-os/gnttab.c:82-83 | What is mapped for writing was last granted for writing |
| GrantTable.MapLasts | xen-4.1.2/extras/mini-os/gnttab.c:109-116 | A mapped frame stays in use until it is unmapped |
| GrantTable.UnmapLasts | xen-4.1.2/extras/mini-os/gnttab.c:109-116 | An unmapped one is not in use until it is mapped again |
| GrantTable.EndReadLasts | xen-4.1.2/extras/mini-os/gnttab.c:109-111 | The flags read by gnttab_end_access are those its test goes by |
| GrantTable.EndDecides | xen-4.1.2/extras/mini-os/gnttab.c:110-116 | It leaves a reference granted if it found it in use; else it clears it if nothing has changed, or tries again with what is there |
| GrantTable.UnitsAccounted | xen-4.1.2/extras/mini-os/gnttab.c:40-71 | In every run, each down takes one unit of the semaphore and each up gives one back, and the threads in between are exactly those yet to pop, and to up |
| GrantTable.RefAccounted | xen-4.1.2/extras/mini-os/gnttab.c:40-71 | In every run, a reference is on the list, or has been taken once more than given back |
| TxRing.InitTx | xen-4.1.2/extras/mini-os/netfront.c:330-335 | All ids on the list, all counted |
| TxRing.StepKeeps | xen-4.1.2/extras/mini-os/netfront.c:181-230 | Every step keeps list, semaphore, ids and ring consistent, with a sender anywhere between reading and writing the producer index |
| TxRing.RoomToSend | xen-4.1.2/extras/mini-os/netfront.c:609-632 | An id in hand means a free ring slot, also at the index its sender has read |
| TxRing.NeverOverfills | xen-4.1.2/extras/mini-os/netfront.c:597-643 | In every run, no request is put into a slot a ring size or more past the answers collected |
| TxRing.TakenOnce | xen-4.1.2/extras/mini-os/netfront.c:609-613 | In every run, no id is handed out twice |
| TxRing.Conserved | xen-4.1.2/extras/mini-os/netfront.c:71-82 | In every run, list length is semaphore count plus takers and releasers on their way |
| TxRing.UnitsAccounted | xen-4.1.2/extras/mini-os/netfront.c:181-230 | In every run, each down takes one unit of the semaphore and each up gives one back, and the threads in between are exactly those yet to pop, and to up |
| TxRing.RingAccounted | xen-4.1.2/extras/mini-os/netfront.c:192-214 | The consumer index counts the answers collected |
| TxRing.IdAccounted | xen-4.1.2/extras/mini-os/netfront.c:71-82 | In every run, an id is on the list as often as it was, plus the times it came back, less the times it was taken |
| TxRing.OwnSlotsIff | xen-4.1.2/extras/mini-os/netfront.c:618-632 | In every run, up to any step, all requests are put into slots of their own if and only if no sender writes the producer index between the read and the write of another |
| TxRing.SharedSlot | xen-4.1.2/extras/mini-os/netfront.c:618-632 | The first write that is not in turn puts its request into a slot already used |
| TxRing.InTurnSlots | xen-4.1.2/extras/mini-os/netfront.c:618-632 | Writes in turn use later and later slots |
| TxRing.AdvanceIff | xen-4.1.2/extras/mini-os/netfront.c:618-632 | Every write moves the producer index forward by one if and only if every write is in turn |
| TxRing.Overtakes | xen-4.1.2/extras/mini-os/netfront.c:618-632 | Wherever four senders hold ids there is a run in which the index goes backwards, two pairs share a slot, and a write that is not in turn moves the index forward |
| TxRing.FourSenders | xen-4.1.2/extras/mini-os/netfront.c:618-632 | Such a run on a ring of four |
| Scheduler.BoundedWaiting | xen-4.1.2/extras/mini-os/sched.c:75-126 | A thread ready and left alone with p threads ahead is chosen by one of the next p + 1 decisions, under any interleaving of the other operations |
| Scheduler.OpMoves | xen-4.1.2/extras/mini-os/sched.c:143-242 | No operation that spares a waiting thread moves it back, and a decision chooses it or moves it forward |
| Scheduler.WokenIsChosen | xen-4.1.2/extras/mini-os/sched.c:238-242 | A thread that is woken is chosen by one of the next p + 1 decisions, whenever they are taken |
| Scheduler.SleeperIsChosen | xen-4.1.2/extras/mini-os/sched.c:103-118 | A thread that sleeps is chosen by one of the first p + 1 decisions after its time |
| Scheduler.CreatedIsChosen | xen-4.1.2/extras/mini-os/sched.c:143-166 | A new thread is chosen once each of the others may have been |
| Scheduler.BlockedIsNotChosen | xen-4.1.2/extras/mini-os/sched.c:224-228 | A thread that blocks is not chosen until it is woken |
| Scheduler.SleeperIsNotChosen | xen-4.1.2/extras/mini-os/sched.c:230-236 | A thread that sleeps is not chosen before its time unless it is woken |
| Scheduler.ExitedIsNotChosen | xen-4.1.2/extras/mini-os/sched.c:204-222 | A thread that has exited is not chosen, woken or not |
| Scheduler.ChosenIsRunnable | xen-4.1.2/extras/mini-os/sched.c:103-118 | A thread that is chosen, though only its time may have come, is runnable until it blocks, sleeps or exits |
| Scheduler.SettledOnRuns | xen-4.1.2/extras/mini-os/sched.c:143-242 | A runnable thread never has a wakeup time left over |
| Scheduler.Threads.Search | xen-4.1.2/extras/mini-os/sched.c:93-122 | Chooses the first ready thread, waking it if its sleep expired; else blocks no later than the earliest wakeup or ten seconds |
| Scheduler.Threads.Schedule | xen-4.1.2/extras/mini-os/sched.c:75-141 | Decides in the first round that finds a thread ready; what follows the switch happens on the stack of the thread chosen |
| Scheduler.Threads.Switch | xen-4.1.2/extras/mini-os/sched.c:129-140 | A resumed thread frees the exited ones, a new thread frees none |
| Scheduler.ActKeeps | xen-4.1.2/extras/mini-os/sched.c:75-242 | Every operation frees only threads that have exited and do not run |
| Scheduler.StackInUse | xen-4.1.2/extras/mini-os/sched.c:75-242 | In every run, the stack in use is never freed, nor that of a thread that can be chosen |
| Scheduler.DecisionFrees | xen-4.1.2/extras/mini-os/sched.c:129-140 | A decision for a resumed thread frees every exited thread, the leaving one included; one for a new thread frees none |
| Scheduler.SuspendedIff | xen-4.1.2/extras/mini-os/sched.c:129-140 | In every run, the threads waiting inside schedule are those that have run and do not run now |
| Scheduler.FreesIffRunBefore | xen-4.1.2/extras/mini-os/sched.c:129-140 | A decision frees the exited threads if and only if the thread chosen has run before |
| Scheduler.Threads.Reap | xen-4.1.2/extras/mini-os/sched.c:131-140 | Exactly the exited threads other than prev are freed |
| Scheduler.Threads.CreateThread | xen-4.1.2/extras/mini-os/sched.c:143-166 | The thread is runnable at the tail |
| Scheduler.Threads.ExitThread | xen-4.1.2/extras/mini-os/sched.c:204-214 | The running thread leaves the list for the exited ones |
| Scheduler.Threads.BlockThread | xen-4.1.2/extras/mini-os/sched.c:224-228 | Neither runnable nor sleeping: not chosen until woken, by `BlockedIsNotChosen` |
| Scheduler.Threads.SleepThread | xen-4.1.2/extras/mini-os/sched.c:230-236 | Sleeping until the given time: not chosen before it, by `SleeperIsNotChosen` |
| Scheduler.Threads.WakeThread | xen-4.1.2/extras/mini-os/sched.c:238-242 | Runnable, with no wakeup time: chosen in turn, by `WokenIsChosen` |
| RawIo.RawFile.Pread | xen-4.1.2/tools/ioemu-qemu-xen/block-raw-posix.c:293-358 | Returns exactly the bytes of the range if the file has them; what happens if not; it does not end if and only if the rest goes through the buffer and the end of the file is met on a sector boundary |
| RawIo.RawFile.PreadBuffered | xen-4.1.2/tools/ioemu-qemu-xen/block-raw-posix.c:327-354 | The loop through the aligned buffer ends with the rest of the range if the file has it, and else not at all or at an unaligned offset |
| RawIo.RawFile.Pwrite | xen-4.1.2/tools/ioemu-qemu-xen/block-raw-posix.c:365-436 | Returns the number of bytes given, and changes exactly the bytes of the range, lengthening the file if need be, if and only if every sector written in part is in the file, or the first is filled to its end after a gap that is zero; every device call is aligned |
| RawIo.RawFile.PwriteBuffered | xen-4.1.2/tools/ioemu-qemu-xen/block-raw-posix.c:399-433 | Whole sectors, then the last one in part: exact if that is in the file, and otherwise the file gets too long |
| RawIo.RawFile.ModifySector | xen-4.1.2/tools/ioemu-qemu-xen/block-raw-posix.c:378-389 | Reading, changing and writing back one sector changes the given bytes, and past the end of the file leaves there what the buffer held |
| RawIo.FirstIff | xen-4.1.2/tools/ioemu-qemu-xen/block-raw-posix.c:376-397 | When the first sector, written in part, comes out as a plain write |
| RawIo.LastIff | xen-4.1.2/tools/ioemu-qemu-xen/block-raw-posix.c:418-431 | When the last one does |
| RawIo.RawFile.BothIff | xen-4.1.2/tools/ioemu-qemu-xen/block-raw-posix.c:365-436 | When both do |

## Left out

- PageAllocator: the level stored at the end of each chunk is written by the code and never read; it is not modelled.
- PageAllocator: free_physical_pages, sbrk and the page-table code of mm.c.
- PageAllocator.Allocator.constructor: memories whose bitmap lacks a bit that is written or tested; the code then writes or reads outside the bitmap, in a page it has given away.
- Kexec: page contents, pinning and unmapping of frames.
- AES: the fully unrolled rounds and the literal 256-entry tables; the tables are derived from an invertible S-box.
- Qcow2Refcounts.Refcounts.UpdateCluster: refcount blocks exist; their creation and the growth of the refcount table, where the recursion may change the cached block under its caller, are not modelled.
- Qcow2Driver.Driver.constructor: images that are not sound, which check_refcounts may accept; nothing is promised for them.
- Qcow2Create.CreateImage: an image of size zero is exact, but its level-1 table is empty and cannot grow, and the driver is not opened on it.
- Qcow2Session.Session: an image of size zero, for that reason.
- Qcow2: compressed clusters, device errors, little-endian hosts, asynchronous requests, and level-1 sizes that leave the range of an int.
- Qcow2: dates and virtual-machine state of snapshots, and reading the snapshot list back from the file.
- Qcow1: compressed clusters, asynchronous scheduling, and qcow_make_empty.
- EventChannels: upcall masks saved and restored by local_irq_save, and binding and unbinding of ports.
- GrantTable: transfers (gnttab_grant_transfer, gnttab_end_transfer), whose free-list steps are the same.
- TxRing: what a backend does with a producer index that goes backwards; the receive path; event thresholds of the ring.
- Scheduler: register contents, and semaphores and wait queues beyond block and wake.
- RawIo: device errors, and reads and writes that a signal cuts short.
- Drivers, xenbus, consoles, disassemblers and the other image formats of the repository.
