/**
 * The unit tests of src/arena.rs and src/store.rs, replayed against the
 * contracts of the classes: every `assert_eq!` of the tests is an assertion
 * here, proved from the method specifications alone.
 */
module Traces {
  import opened Wrappers
  import opened References
  import opened ArenaSpec
  import opened Arenas
  import opened Stores

  /** The `n` little-endian bytes of `x` (the in-memory image of an unsigned integer). */
  function LeBytes(x: nat, n: nat): (b: seq<byte>)
    ensures |b| == n
  {
    if n == 0 then [] else [(x % 256) as byte] + LeBytes(x / 256, n - 1)
  }

  /** Offsets that are multiples of 8 from an 8-aligned base are 8- and 4-aligned. */
  lemma EightAligned(b: nat, k: nat)
    requires b % 8 == 0 && k % 8 == 0
    ensures Aligned(b + k, 8) && Aligned(b + k, 4)
  {
    var q := b / 8 + k / 8;
    assert b + k == q * 8 + 0;
    ModOfMultiplePlus(q, 0, 8);
    assert b + k == (2 * q) * 4 + 0;
    ModOfMultiplePlus(2 * q, 0, 4);
  }

  /** A value that fits after the write position lands there, `pad` bytes on. */
  lemma FitsAt(s: ArenaState, blockSize: nat, layout: Layout, sysBase: nat, pad: nat)
    requires Inv(s) && ValidLayout(layout) && layout.size < blockSize
    requires pad < layout.align && Aligned(s.blocks[s.cur].base + s.offset + pad, layout.align)
    requires s.offset + pad + layout.size <= blockSize
    ensures Place(s, blockSize, layout, sysBase)
      == (ArenaState(s.blocks, s.cur, s.offset + pad + layout.size), s.blocks[s.cur].base + s.offset + pad)
  {
    PadIsUnique(s.blocks[s.cur].base + s.offset, layout.align, pad);
  }

  /** A value that cannot fit moves to the start of the next (aligned) block. */
  lemma RollsTo(s: ArenaState, blockSize: nat, layout: Layout, sysBase: nat, next: nat)
    requires Inv(s) && ValidLayout(layout) && layout.size < blockSize
    requires s.offset + layout.size > blockSize
    requires next == (if s.cur + 1 < |s.blocks| then s.blocks[s.cur + 1].base else sysBase)
    requires Aligned(next, layout.align)
    ensures Place(s, blockSize, layout, sysBase)
      == (ArenaState(StepToNextBlock(s, blockSize, sysBase).blocks, s.cur + 1, layout.size), next)
  {
    PadIsUnique(next, layout.align, 0);
  }

  /** `alloc` of a value that fits after the write position, `pad` bytes on. */
  method AllocFitting(arena: Arena, v: seq<byte>, align: nat, sysBase: nat, pad: nat) returns (r: Ref)
    requires arena.Valid() && IsPow2(align) && |v| < arena.blockSize
    requires pad < align && Aligned(arena.blocks[arena.curBlock].base + arena.offset + pad, align)
    requires arena.offset + pad + |v| <= arena.blockSize
    modifies arena
    ensures arena.Valid() && arena.Get(r) == Some(v)
    ensures arena.blocks == old(arena.blocks) && arena.curBlock == old(arena.curBlock)
    ensures arena.offset == old(arena.offset) + pad + |v|
    ensures r == New(arena.arenaId, Ptr(old(arena.blocks[arena.curBlock].base + arena.offset) + pad, |v|))
  {
    FitsAt(arena.State(), arena.blockSize, Layout(|v|, align), sysBase, pad);
    r := arena.Alloc(v, align, sysBase);
  }

  /** `alloc` of a value that does not fit: it goes to the start of the next block. */
  method AllocRolling(arena: Arena, v: seq<byte>, align: nat, sysBase: nat, next: nat) returns (r: Ref)
    requires arena.Valid() && IsPow2(align) && |v| < arena.blockSize
    requires arena.offset + |v| > arena.blockSize
    requires next == (if arena.curBlock + 1 < |arena.blocks| then arena.blocks[arena.curBlock + 1].base else sysBase)
    requires Aligned(next, align)
    modifies arena
    ensures arena.Valid() && arena.Get(r) == Some(v)
    ensures arena.blocks == StepToNextBlock(old(arena.State()), arena.blockSize, sysBase).blocks
    ensures arena.curBlock == old(arena.curBlock) + 1 && arena.offset == |v|
  {
    RollsTo(arena.State(), arena.blockSize, Layout(|v|, align), sysBase, next);
    r := arena.Alloc(v, align, sysBase);
  }

  /** `alloc_str` of a string whose bytes fit after the write position. */
  method AllocStrFitting(arena: Arena, s: string, sysBase: nat) returns (r: Ref)
    requires arena.Valid() && |Utf8(s)| < arena.blockSize
    requires arena.offset + |Utf8(s)| <= arena.blockSize
    modifies arena
    ensures arena.Valid() && arena.Get(r) == Some(Utf8(s))
    ensures arena.blocks == old(arena.blocks) && arena.curBlock == old(arena.curBlock)
    ensures arena.offset == old(arena.offset) + |Utf8(s)|
    ensures r == New(arena.arenaId, Ptr(old(arena.blocks[arena.curBlock].base + arena.offset), |Utf8(s)|))
    ensures forall q :: AsPtr(q).addr + AsPtr(q).len <= AsPtr(r).addr ==> arena.Get(q) == old(arena.Get(q))
  {
    FitsAt(arena.State(), arena.blockSize, Layout(|Utf8(s)|, 1), sysBase, 0);
    r := arena.AllocStr(s, sysBase);
    forall q | AsPtr(q).addr + AsPtr(q).len <= AsPtr(r).addr
      ensures arena.Get(q) == old(arena.Get(q))
    {
      ResolveAfterDisjointWrite(arena.arenaId, old(arena.memory), q, AsPtr(r).addr, Utf8(s));
    }
  }

  /** `alloc_str` of a string that does not fit: it goes to the start of the next block. */
  method AllocStrRolling(arena: Arena, s: string, sysBase: nat) returns (r: Ref)
    requires arena.Valid() && |Utf8(s)| < arena.blockSize
    requires arena.offset + |Utf8(s)| > arena.blockSize
    modifies arena
    ensures arena.Valid() && arena.Get(r) == Some(Utf8(s))
    ensures arena.blocks == StepToNextBlock(old(arena.State()), arena.blockSize, sysBase).blocks
    ensures arena.curBlock == old(arena.curBlock) + 1 && arena.offset == |Utf8(s)|
  {
    var next := if arena.curBlock + 1 < |arena.blocks| then arena.blocks[arena.curBlock + 1].base else sysBase;
    RollsTo(arena.State(), arena.blockSize, Layout(|Utf8(s)|, 1), sysBase, next);
    r := arena.AllocStr(s, sysBase);
  }

  /**
   * `mutate_arena` on an `Arena<32>` written from the start of its first
   * block: blocks are 8-aligned, as the system allocator places them.
   */
  method MutateArena(arena: Arena, sysBase: nat)
    requires arena.Valid() && arena.blockSize == 32 && arena.curBlock == 0 && arena.offset == 0
    requires forall i :: 0 <= i < |arena.blocks| ==> arena.blocks[i].base % 8 == 0
    requires sysBase % 8 == 0
    modifies arena
    ensures arena.Valid() && arena.curBlock == 1 && arena.offset == 8
    ensures forall i :: 0 <= i < |arena.blocks| ==> arena.blocks[i].base % 8 == 0
    ensures old(|arena.blocks|) >= 2 ==> arena.blocks == old(arena.blocks)
    ensures old(|arena.blocks|) == 1 ==> |arena.blocks| == 2
  {
    var b0 := arena.blocks[0].base;
    EightAligned(b0, 0);
    var r1 := AllocFitting(arena, LeBytes(1234, 8), 8, sysBase, 0);
    assert arena.Get(r1) == Some(LeBytes(1234, 8));
    assert arena.offset == 8;

    EightAligned(b0, 8);
    var r2 := AllocFitting(arena, LeBytes(4321, 4), 4, sysBase, 0);
    assert arena.Get(r2) == Some(LeBytes(4321, 4));
    assert arena.offset == 8 + 4;

    EightAligned(b0, 16);
    var r3 := AllocFitting(arena, LeBytes(1010, 8), 8, sysBase, 4);
    assert arena.Get(r3) == Some(LeBytes(1010, 8));
    assert arena.offset == 8 + 4 + 4 + 8;

    EightAligned(b0, 24);
    var r4 := AllocFitting(arena, LeBytes(0xFFFF_FFFF_FFFF_FFFF, 8), 8, sysBase, 0);
    assert arena.Get(r4) == Some(LeBytes(0xFFFF_FFFF_FFFF_FFFF, 8));
    assert arena.offset == 32;
    assert arena.curBlock == 0;

    var next := if 1 < |arena.blocks| then arena.blocks[1].base else sysBase;
    EightAligned(next, 0);
    var r5 := AllocRolling(arena, LeBytes(0, 8), 8, sysBase, next);
    assert arena.Get(r5) == Some(LeBytes(0, 8));
    assert arena.offset == 8;
    assert arena.curBlock == 1;
  }

  /** `test_arena` */
  method TestArena()
  {
    var arena := new Arena.New(32, 0, 4096);
    MutateArena(arena, 8192);
    arena.Clear();
    MutateArena(arena, 12288);
    assert |arena.blocks| == 2;

    var old_ := arena.Alloc(LeBytes(555, 4), 4, 16384);
    assert arena.Get(old_) == Some(LeBytes(555, 4));

    var arena2 := new Arena.New(0, 1, 20480);
    assert arena2.Get(old_) == None;

    var x := arena2.Alloc(LeBytes(123123, 4), 4, 24576);
    assert arena2.Get(x) == Some(LeBytes(123123, 4));
    assert arena2.offset == 0;
  }

  /** "yöte" is five bytes: the "ö" (U+00F6) takes two, 0xC3 0xB6. */
  lemma YoteUtf8()
    ensures Utf8("y\U{F6}te") == [0x79, 0xC3, 0xB6, 0x74, 0x65]
  {
  }

  /** `test_arena_str` */
  method TestArenaStr()
  {
    var arena := new Arena.New(16, 2, 4096);

    var r := AllocStrFitting(arena, "yote", 8192);
    assert arena.Get(r) == Some(Utf8("yote"));
    assert arena.offset == 4;

    var x := AllocStrFitting(arena, "y\U{F6}te", 8192);
    assert arena.Get(x) == Some(Utf8("y\U{F6}te"));
    assert arena.offset == 9;

    var a := AllocStrFitting(arena, "123456", 8192);
    assert arena.Get(a) == Some(Utf8("123456"));
    assert arena.offset == 15;

    var b := AllocStrRolling(arena, "1234", 8192);
    assert arena.Get(b) == Some(Utf8("1234"));
    assert arena.offset == 4;

    var c := AllocStrFitting(arena, "3", 8192);
    var d := AllocStrFitting(arena, "4", 8192);
    assert arena.Get(c) == Some(Utf8("3"));
    assert arena.Get(d) == Some(Utf8("4"));
    assert arena.offset == 6;
  }

  /**
   * `get` after `clear`: a ref issued before it still resolves, and once a
   * later allocation lands on the same bytes it resolves to the new value;
   * it is then equal to the new ref.
   */
  method StaleRefAfterClear()
  {
    var arena := new Arena.New(32, 3, 4096);
    var r := AllocFitting(arena, LeBytes(1234, 8), 8, 8192, 0);
    arena.Clear();
    assert arena.Get(r) == Some(LeBytes(1234, 8));

    var s := AllocFitting(arena, LeBytes(4321, 8), 8, 8192, 0);
    assert Eq(r, s);
    assert arena.Get(r) == Some(LeBytes(4321, 8));
  }

  /** `test_store` */
  method TestStore()
  {
    var store := new Store<int>.New(0);
    var a := store.Alloc(12);
    var b := store.Alloc(13);
    var c := store.Alloc(14);
    assert store.Get(a) == Some(12);
    assert store.Get(b) == Some(13);
    assert store.Get(c) == Some(14);
  }
}
