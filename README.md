# batched: arena and store allocators

A Dafny model of the two containers of the `batched` crate and the tokens they hand out:

- **`Arena<BLOCK_SIZE>`** (`src/arena.rs`), a bump allocator. It holds an id, a list of blocks (each a
  layout and a base address), the index of the block being written (`cur_block`) and the write offset in it.
  `make_space_for_layout` pads the write position to the value's alignment and rolls over to the next block
  when the value does not fit. A value at least `BLOCK_SIZE` bytes long gets a "personal" block of its own.
  `get`/`get_mut` check only that the ref's id is the arena's id. `clear` rewinds the write position and
  keeps every block.
- **`Store<T>`** (`src/store.rs`), an append-only vector with an id. `alloc` hands out a `Handle` made of
  the store id and the slot index.
- **`Ref`** (`src/reference.rs`, declared a second time in `src/arena.rs`), a provenance token: the id of
  the container plus the pointer. Equality is field-wise and the hash input is the id and then the address.

Files:

- `wrappers.dfy`: `Option`.
- `reference.dfy` (module `References`): `Ptr`, `Ref`, constructor, accessors, equality and hash input.
  The two declarations of `Ref` in the crate are distinct types of the same shape (an id and a pointer),
  so the model has one datatype for both.
- `store.dfy` (module `Stores`): `Handle`, the pure lookup `Lookup`, and `class Store` whose methods
  update `values` in place.
- `arena_spec.dfy` (module `ArenaSpec`): the arena's state as a value (`ArenaState`), the placement
  algorithm as functions (`AlignPad`, `StepToNextBlock`, `PlaceInBlocks`, `InsertPersonal`, `Place`,
  `Cleared`, `CapacityBlocks`), the lemmas about them, and the two findings below.
- `arena.dfy` (module `Arenas`): `class Arena`, whose methods follow the Rust methods step by step and
  whose contracts tie each new state to the functions of `ArenaSpec`. Memory is a map from address to
  byte; a value is stored as its bytes, a `str` as its UTF-8 bytes.
- `traces.dfy` (module `Traces`): the unit tests `mutate_arena`, `test_arena`, `test_arena_str` and
  `test_store` written as methods whose assertions (one per `assert_eq!`) follow from the contracts of the
  classes alone. They assume, as the tests do, block bases that are multiples of 8.

Calls to the system allocator are not modelled. Every method that may need a new block takes `sysBase`, the
address the allocator would return; it is used only when the call allocates. Arena and store ids are
passed to the constructors.

Where the crate's comments promise more than its code does, the model follows the code:

- The SAFETY comment of `alloc_memcpy` and `alloc_str` says there is enough space in the block for the value
  (src/arena.rs:145-147, 181-183). The rollover path places the value without checking the fresh block
  again, so the value can run past the block's end (finding 2).
- The oversized path increments `cur_block` (src/arena.rs:138, 171) and leaves `offset` as it was.
- The comment "so that it is the second to last one" (src/arena.rs:135, 168) together with `cur_block += 1`
  keeps the write position on the same block only when the last block is being written. After `clear` of an
  arena holding two or more blocks, or after `with_blocks(n)` with n ≥ 1, the personal block becomes the
  current block or lies ahead of it (finding 1).
- The doc comments of `get` and `get_mut` (src/arena.rs:212, 224) say they return None once the arena has
  been cleared. The code compares ids only (src/arena.rs:214, 226) and `clear` only rewinds the write
  position (src/arena.rs:235-238). So a ref issued before `clear` still resolves, to whatever bytes now sit
  at its pointer: `Arenas.Arena.Clear` ensures every ref resolves as before, and `Traces.StaleRefAfterClear`
  shows such a ref resolving to a value allocated after `clear`, and comparing equal to that value's ref.
- For the same reason a ref built with the public `Ref::new` (src/arena.rs:261) from the arena's id and any
  pointer passes the check and is dereferenced: `Arenas.Resolve` answers `Some` for every ref carrying the
  arena's id.

## Model

| member | source | states |
|---|---|---|
| References.New | src/reference.rs:10-14 | `Ref::new` keeps both fields: `arena_id()` gives back the id and `as_ptr()` gives back the pointer |
| References.Clone | src/reference.rs:50-54 | a clone compares equal to the original and has the same id and pointer |
| References.Eq | src/reference.rs:58-62 | two refs are equal exactly when id and pointer both match; refs with different ids are never equal |
| References.HashInput | src/reference.rs:66-71 | the hasher is fed two words: the id, then the pointer's address |
| References.EqIsEquivalence | src/reference.rs:58-64 | ref equality is reflexive, symmetric and transitive, as `Eq` requires |
| References.EqualRefsHashAlike | src/reference.rs:58-71 | equal refs produce identical hash input |
| References.DistinctIdsNeverEqual | src/arena.rs:309-322 | refs from two containers differ in equality and in hash input even when their pointers coincide |
| Stores.HandleClone | src/store.rs:54-58 | a cloned handle compares equal to the original |
| Stores.HandleEq | src/store.rs:62-66 | handles are equal exactly when store id and index both match |
| Stores.HandleHashInput | src/store.rs:70-75 | the hasher is fed the store id, then the index |
| Stores.EqualHandlesHashAlike | src/store.rs:62-75 | equal handles produce identical hash input |
| Stores.HandleEqIsEquivalence | src/store.rs:62-68 | handle equality is an equivalence relation |
| Stores.Lookup | src/store.rs:28-34 | `get` answers None exactly when the handle's store id differs; otherwise the value at the handle's index |
| Stores.HandleOutlivesGrowth | src/store.rs:18-33 | the handle issued for `v` resolves to `v` after any number of later pushes |
| Stores.ForeignHandleNeverResolves | src/store.rs:28-31 | a handle of another store resolves to None whatever its index |
| Stores.Store.Get | src/store.rs:28-34 | `get` delegates to Lookup: None exactly for a handle of another store, otherwise the value in the handle's slot |
| Stores.Store.New | src/store.rs:10-12 | a new store is empty, has the id it was given and has issued no handle |
| Stores.Store.WithCapacity | src/store.rs:14-16 | as `new`: empty, the given id, no handle issued (the reservation is not observable) |
| Stores.Store.Alloc | src/store.rs:18-26 | the values become the old values followed by `v`; the handle is (store id, new length - 1) and resolves to `v`; every handle issued before resolves as before |
| Stores.Store.GetMut | src/store.rs:36-42 | a foreign handle changes nothing and reports not found; otherwise only the slot at the handle's index is replaced, the handle then resolves to the new value and every other issued handle resolves as before |
| ArenaSpec.AlignPad | src/arena.rs:94 | `align_offset` on a byte pointer: the padding is below `align`, reaches a multiple of `align`, and no smaller padding does |
| ArenaSpec.PadIsUnique | src/arena.rs:94 | any padding below `align` that reaches a multiple of `align` is the one `align_offset` returns |
| ArenaSpec.Fresh | src/arena.rs:18-24 | a new arena has exactly one block, `cur_block` 0 and offset 0 |
| ArenaSpec.StepToNextBlock | src/arena.rs:74-82 | `cur_block` grows by exactly one and the offset becomes 0; the block list is extended, and by exactly one block at the new index, only when no block existed there; `cur_block` stays within the list |
| ArenaSpec.PlaceInBlocks | src/arena.rs:86-121 | the write position stays on an existing block; where the value goes is stated by FitPath and RolloverPath |
| ArenaSpec.InsertPersonal | src/arena.rs:127-140 | the oversized path: the personal block sits at index `len-1`, the last block moves one place up, the blocks before are unchanged, `cur_block` grows by one and the offset is unchanged |
| ArenaSpec.Place | src/arena.rs:124-152 | one allocation keeps `cur_block` on an existing block; its two paths are stated by OversizedPath, FitPath and RolloverPath |
| ArenaSpec.Cleared | src/arena.rs:235-238 | `clear` sets `cur_block` and offset to 0 and keeps the blocks |
| ArenaSpec.CapacityBlocks | src/arena.rs:43 | the block count `with_capacity` asks for is the least count whose capacity covers `n` bytes, that is, n/BLOCK_SIZE rounded up |
| ArenaSpec.FitPath | src/arena.rs:90-118 | when the padded value fits, it goes at base + offset + pad, with pad < align and the address aligned; the new offset is offset + pad + size, at most BLOCK_SIZE, and ends exactly where the value ends; the blocks and `cur_block` are unchanged |
| ArenaSpec.RolloverPath | src/arena.rs:96-107 | when it does not fit, `cur_block` grows by one and the value goes at the next block's base plus the padding from there; the new offset is that padding plus the size, with no second fit check; it is the size alone, within the block, when the next base is aligned |
| ArenaSpec.SuccessiveFitsDisjoint | src/arena.rs:115-118 | two allocations that both fit the current block get disjoint, increasing address ranges and the offset never decreases |
| ArenaSpec.OversizedPath | src/arena.rs:127-140 | a value of at least BLOCK_SIZE bytes lands at the base of a new personal block at index `len-1`; there is one more block, `cur_block` grows by one and the offset is unchanged |
| ArenaSpec.PersonalKeepsPositionOnlyAtEnd | src/arena.rs:135-138 | the oversized path leaves the block being written and every block after it in place if and only if `cur_block` is the last block |
| ArenaSpec.Run | src/arena.rs:124-152 | a sequence of allocations yields one observation (`cur_block`, offset, address) per allocation and keeps `cur_block` on an existing block |
| ArenaSpec.RunOnlyAppends | src/arena.rs:70 | normal-sized allocations never drop or reorder blocks: the old block list is a prefix of the new one |
| ArenaSpec.ReplayOverGrownBlocks | src/arena.rs:74-82 | replaying normal allocations from the same position over the blocks a first run ended with gives the same observations and end state, without allocating |
| ArenaSpec.ClearThenReplay | src/arena.rs:235-238 | after `clear`, repeating the normal-sized allocations made since the arena was fresh or last cleared reproduces every `cur_block`, offset and address, and the same end state |
| ArenaSpec.OversizedOverwrittenAsWritten | src/arena.rs:135-138 | finding 1 as written: in `Arena::<16>::with_blocks(1)`, a 16-byte value and then one byte, the byte is placed on the first byte of the 16-byte value |
| ArenaSpec.InsertPersonalBeforeCurrent | src/arena.rs:135-138 | finding 1 corrected: the personal block goes just before the block being written, so that block and all after it keep their place, and `cur_block` follows it |
| ArenaSpec.CorrectionAgreesAtEnd | src/arena.rs:135-138 | when the last block is being written, the correction inserts at `len-1` exactly as the source does |
| ArenaSpec.PlaceInBlocksSeesOnlyAhead | src/arena.rs:86-121 | placement depends only on the blocks from `cur_block` on and on the offset |
| ArenaSpec.SameAheadRuns | src/arena.rs:86-121 | two arenas with the same blocks ahead and the same offset place every later normal allocation at the same address and offset |
| ArenaSpec.CorrectedOversizedIsTransparent | src/arena.rs:127-140 | with the correction, an oversized allocation changes no address or offset of the normal allocations that follow |
| ArenaSpec.RolloverOverrunsBlock | src/arena.rs:96-107 | finding 2 as written: `Arena::<100>` with blocks based at 16 modulo 64 and a 64-byte value aligned to 64 ends at offset 112, past the end of its block |
| ArenaSpec.PlaceCorrected | src/arena.rs:124-141 | finding 2 corrected: a value that might not fit a fresh block once padded gets a personal block (at least a block's size) before the current block; the write position stays on an existing block |
| ArenaSpec.CorrectedStaysInBlock | src/arena.rs:96-140 | with the correction every value lies wholly inside one block (a normal one, ending at the new offset, or its own personal block) and the offset never passes BLOCK_SIZE |
| Arenas.WriteBytes | src/arena.rs:148 | `copy_nonoverlapping`: the bytes land at their addresses and every other address is unchanged |
| Arenas.ReadBytes | src/arena.rs:219 | reading through a pointer gives exactly as many bytes as the pointee's length |
| Arenas.ReadAfterWrite | src/arena.rs:148 | bytes just written are read back unchanged |
| Arenas.ReadAfterDisjointWrite | src/arena.rs:184 | a write to a disjoint range does not change what is read |
| Arenas.Resolve | src/arena.rs:213-220 | `get` answers None exactly when the ref's id is not the arena's; otherwise the bytes at the ref's pointer |
| Arenas.ResolveAfterWrite | src/arena.rs:150-151 | the ref for bytes just written resolves to them |
| Arenas.ResolveAfterDisjointWrite | src/arena.rs:184 | a ref keeps resolving to the same bytes across a write to a disjoint range |
| Arenas.CharUtf8 | src/arena.rs:156 | a character takes one to four bytes, and one exactly when it is ASCII |
| Arenas.Utf8 | src/arena.rs:156 | a string's UTF-8 bytes number between its length and four times it, and exactly its length for ASCII |
| Arenas.Arena.New | src/arena.rs:18-24 | a new arena has the given id and is the fresh state: one block, `cur_block` 0, offset 0, nothing written |
| Arenas.Arena.WithBlocks | src/arena.rs:49-57 | `with_blocks(n)` ends with n+1 normal blocks, at the allocator's addresses in order, written from the start of the first |
| Arenas.Arena.WithCapacity | src/arena.rs:42-46 | `with_capacity(n)` ends with 1 + n/BLOCK_SIZE rounded up normal blocks at the allocator's addresses, the blocks after the first cover n bytes, written from the start of the first, nothing written yet |
| Arenas.Arena.AllocBlock | src/arena.rs:60-71 | one normal block is appended at the allocator's address; nothing else changes |
| Arenas.Arena.NextBlock | src/arena.rs:74-82 | the new state is StepToNextBlock of the old one; memory is unchanged |
| Arenas.Arena.MakeSpaceForLayout | src/arena.rs:86-121 | the new state and the returned address are PlaceInBlocks of the old state; memory is unchanged |
| Arenas.Arena.InsertPersonalBlock | src/arena.rs:135-138 | the oversized path's bookkeeping: the new state is InsertPersonal of the old one (personal block at index `len-1`, `cur_block` one higher, offset kept); memory is unchanged |
| Arenas.Arena.AllocMemcpy | src/arena.rs:124-152 | the new state and the value's address are Place of the old state; the ref carries the arena id and the value's length; memory is the old memory with the value written there; `get` of the ref gives the value |
| Arenas.Arena.Alloc | src/arena.rs:197-208 | as `alloc_memcpy`: Place gives state and address, and `get` of the returned ref gives the value |
| Arenas.Arena.AllocStr | src/arena.rs:155-191 | the same placement for the UTF-8 bytes with alignment 1; the ref's length is the byte length and `get` gives the bytes back |
| Arenas.Arena.Get | src/arena.rs:213-220 | `get` delegates to Resolve: None exactly when the ref's id is not the arena's, otherwise the bytes at the ref's pointer |
| Arenas.Arena.GetMut | src/arena.rs:225-232 | a foreign ref reports not found and changes nothing; otherwise the store through it writes the ref's range, leaves the block state unchanged and `get` then gives the new value |
| Arenas.Arena.Clear | src/arena.rs:235-238 | the new state is Cleared of the old one; blocks, id and memory are unchanged, so every ref resolves after `clear` exactly as before it (not None, as the doc comments of `get` and `get_mut` say) |
| Traces.MutateArena | src/arena.rs:332-358 | the test's offsets 8, 12, 24 (after 4 bytes of padding) and 32 in block 0, then offset 8 in block 1, each value read back by `get`; a second round after `clear` reuses the blocks |
| Traces.YoteUtf8 | src/arena.rs:403-405 | "yöte" is five bytes, the "ö" taking two |

The methods `Traces.TestArena`, `Traces.TestArenaStr` and `Traces.TestStore` replay `test_arena`
(src/arena.rs:361-389), `test_arena_str` (src/arena.rs:396-423) and `test_store` (src/store.rs:84-94):
each `assert_eq!` of the test is an `assert` proved from the class contracts. `Traces.StaleRefAfterClear`
shows a ref issued before `clear` resolving, after `clear`, to the value later allocated on its bytes.

## Left out

- The arena and store id counters (src/arena.rs:26-39, src/counter.rs): process-wide atomics; ids are constructor parameters here. src/counter.rs is not part of this model.
- The system allocator, `dealloc` and the out-of-memory panic (src/arena.rs:60-71, 241-250): the allocator's answer is the `sysBase` parameter, and `Drop` only frees blocks.
- Arenas.Arena.WithCapacity: requires a non-zero BLOCK_SIZE, because the source divides by it and panics for `Arena::<0>`.
- Stores.Store.Get and Stores.Store.GetMut: require that a handle bearing this store's id is one it issued; handle fields are private and ids unique, so no other such handle can exist, and the source would panic on an out-of-range index.
- Arenas.Arena.GetMut: models `get_mut` followed by one store of a value of the ref's length through the returned reference; a lasting `&mut` borrow is not modelled.
- `usize` wrap-around of offsets, addresses and block counts: integers are unbounded.
- Value types: a value is its byte image, and a typed read is a read of as many bytes; unwritten bytes read as 0.
- Zero-sized values and `NonNull::new(..).unwrap()` on the personal-block pointer: a null allocator answer is not modelled.
- `get_unchecked` and `get_mut_unchecked`: unsafe accessors with no checks to state.
- src/lib.rs (re-exports), the `Unpin` auto-trait test and thread safety: nothing to model in a sequential setting.
- ArenaSpec.ClearThenReplay: covers allocations smaller than a block. `clear` keeps the block list, but a replayed oversized allocation inserts a second personal block at `len-1` while `cur_block` walks the earlier blocks, the first run's personal block among them, so the replay diverges (finding 1).

## Findings

| source | as written | input that shows it | evidently intended | confidence | as-written member | corrected member |
|---|---|---|---|---|---|---|
| src/arena.rs:135-138 | the personal block is inserted at index `len-1` and `cur_block` is incremented, whatever block is being written | `Arena::<16>::with_blocks(1)`, allocate a 16-byte value, then one byte: the byte goes at the personal block's base, over the first byte of the 16-byte value | the personal block is placed so that it is never the current block: just before the block being written | high, not executed | ArenaSpec.OversizedOverwrittenAsWritten | ArenaSpec.InsertPersonalBeforeCurrent |
| src/arena.rs:96-107 | after rolling over, the value is placed after the new block's padding with no second fit check | `Arena::<100>` with blocks at addresses 16 modulo 64, allocate a 64-byte value aligned to 64: padding 48 in the fresh block, offset 112, 12 bytes past the block | every value lies wholly inside a block (the offset stays within BLOCK_SIZE) | medium, not executed | ArenaSpec.RolloverOverrunsBlock | ArenaSpec.PlaceCorrected |

The class `Arenas.Arena` follows the source as written. The corrected definitions are proved about in
`ArenaSpec` (ArenaSpec.CorrectedOversizedIsTransparent, ArenaSpec.CorrectedStaysInBlock).
