/**
 * The arena of src/arena.rs as a class: the fields `arena_id`, `blocks`,
 * `cur_block` and `offset`, plus the bytes the arena has written. Each method
 * follows the Rust method step by step and is tied to the functions of
 * ArenaSpec. Calls into the system allocator are not modelled: the address it
 * would return is passed in as `sysBase`, and is used only when the call has to
 * allocate a block.
 */
module Arenas {
  import opened Wrappers
  import opened References
  import opened ArenaSpec

  newtype byte = x: int | 0 <= x < 256

  /** Memory as the arena sees it: the bytes written so far, by address. */
  type Memory = map<nat, byte>

  /** `copy_nonoverlapping` of `bytes` to `addr`: those bytes land there, nothing else changes. */
  function WriteBytes(mem: Memory, addr: nat, bytes: seq<byte>): (m: Memory)
    ensures forall a :: addr <= a < addr + |bytes| ==> a in m && m[a] == bytes[a - addr]
    ensures forall a :: !(addr <= a < addr + |bytes|) ==> (a in m <==> a in mem) && (a in m ==> m[a] == mem[a])
    decreases |bytes|
  {
    if bytes == [] then
      mem
    else
      WriteBytes(mem[addr := bytes[0]], addr + 1, bytes[1..])
  }

  /** The `n` bytes at `addr`; a byte never written reads as 0. */
  function ReadBytes(mem: Memory, addr: nat, n: nat): (r: seq<byte>)
    ensures |r| == n
  {
    seq(n, i requires 0 <= i < n => if addr + i in mem then mem[addr + i] else 0)
  }

  /** What was just written is what is read back. */
  lemma ReadAfterWrite(mem: Memory, addr: nat, bytes: seq<byte>)
    ensures ReadBytes(WriteBytes(mem, addr, bytes), addr, |bytes|) == bytes
  {
    var m := WriteBytes(mem, addr, bytes);
    forall i | 0 <= i < |bytes|
      ensures ReadBytes(m, addr, |bytes|)[i] == bytes[i]
    {
      var a := addr + i;
      assert a in m && m[a] == bytes[a - addr];
    }
  }

  /** A write to a disjoint range leaves what is read unchanged. */
  lemma ReadAfterDisjointWrite(mem: Memory, addr: nat, n: nat, at: nat, bytes: seq<byte>)
    requires addr + n <= at || at + |bytes| <= addr
    ensures ReadBytes(WriteBytes(mem, at, bytes), addr, n) == ReadBytes(mem, addr, n)
  {
    var m := WriteBytes(mem, at, bytes);
    forall i | 0 <= i < n
      ensures ReadBytes(m, addr, n)[i] == ReadBytes(mem, addr, n)[i]
    {
      var a := addr + i;
      assert (a in m <==> a in mem) && (a in m ==> m[a] == mem[a]);
    }
  }

  /**
   * `Arena::get` for an arena with id `id` and memory `mem`: nothing for a ref
   * of another arena; otherwise the bytes at the ref's pointer, whether or
   * not they still hold what was stored there (after `clear` they need not).
   */
  function Resolve(id: nat, mem: Memory, r: Ref): (v: Option<seq<byte>>)
    ensures v.None? <==> ArenaId(r) != id
    ensures v.Some? ==> v.value == ReadBytes(mem, AsPtr(r).addr, AsPtr(r).len)
  {
    if r.id != id then None else Some(ReadBytes(mem, r.ptr.addr, r.ptr.len))
  }

  /** `get(alloc(v)) == Some(v)`: the ref for bytes just written resolves to them. */
  lemma ResolveAfterWrite(id: nat, mem: Memory, addr: nat, v: seq<byte>)
    ensures Resolve(id, WriteBytes(mem, addr, v), New(id, Ptr(addr, |v|))) == Some(v)
  {
    ReadAfterWrite(mem, addr, v);
  }

  /** A ref keeps resolving to the same bytes across a write elsewhere. */
  lemma ResolveAfterDisjointWrite(id: nat, mem: Memory, r: Ref, at: nat, bytes: seq<byte>)
    requires r.ptr.addr + r.ptr.len <= at || at + |bytes| <= r.ptr.addr
    ensures Resolve(id, WriteBytes(mem, at, bytes), r) == Resolve(id, mem, r)
  {
    ReadAfterDisjointWrite(mem, r.ptr.addr, r.ptr.len, at, bytes);
  }

  /** The UTF-8 encoding of one character: one to four bytes. */
  function CharUtf8(c: char): (b: seq<byte>)
    ensures 1 <= |b| <= 4
    ensures |b| == 1 <==> (c as int) < 0x80
  {
    var cp := c as int;
    if cp < 0x80 then
      [cp as byte]
    else if cp < 0x800 then
      [(0xC0 + cp / 0x40) as byte, (0x80 + cp % 0x40) as byte]
    else if cp < 0x1_0000 then
      [(0xE0 + cp / 0x1000) as byte, (0x80 + cp / 0x40 % 0x40) as byte, (0x80 + cp % 0x40) as byte]
    else
      [(0xF0 + cp / 0x4_0000) as byte, (0x80 + cp / 0x1000 % 0x40) as byte,
       (0x80 + cp / 0x40 % 0x40) as byte, (0x80 + cp % 0x40) as byte]
  }

  /**
   * `str::as_bytes`: a Rust `str` is its UTF-8 encoding, at least one byte
   * per character and exactly one for ASCII text.
   */
  function Utf8(s: string): (b: seq<byte>)
    ensures |s| <= |b| <= 4 * |s|
    ensures (forall i :: 0 <= i < |s| ==> (s[i] as int) < 0x80) ==> |b| == |s|
  {
    if s == [] then [] else CharUtf8(s[0]) + Utf8(s[1..])
  }

  class Arena {
    /** The `BLOCK_SIZE` const parameter. */
    const blockSize: nat
    const arenaId: nat
    var blocks: seq<Block>
    var curBlock: nat
    var offset: nat
    var memory: Memory

    function State(): ArenaState
      reads this
    {
      ArenaState(blocks, curBlock, offset)
    }

    predicate Valid()
      reads this
    {
      Inv(State())
    }

    /**
     * `Arena::new`: `_new` then `alloc_block`. `id` is what the arena counter
     * hands out; `base` is where the system allocator puts the first block.
     */
    constructor New(blockSize: nat, id: nat, base: nat)
      ensures Valid() && this.blockSize == blockSize && arenaId == id
      ensures State() == Fresh(blockSize, base)
      ensures memory == map[]
    {
      this.blockSize := blockSize;
      arenaId := id;
      blocks := [];
      curBlock := 0;
      offset := 0;
      memory := map[];
      new;
      AllocBlock(base);
    }

    /**
     * `Arena::with_blocks(n)`: a new arena, then `n` more blocks, so n+1 in
     * all, written from the start of the first. `bases` are the addresses the
     * system allocator returns, in order.
     */
    static method WithBlocks(blockSize: nat, id: nat, n: nat, bases: seq<nat>) returns (a: Arena)
      requires |bases| == n + 1
      ensures fresh(a) && a.Valid() && a.blockSize == blockSize && a.arenaId == id
      ensures |a.blocks| == n + 1 && a.curBlock == 0 && a.offset == 0 && a.memory == map[]
      ensures forall i :: 0 <= i <= n ==> a.blocks[i] == Block(BlockLayout(blockSize), bases[i])
    {
      a := new Arena.New(blockSize, id, bases[0]);
      for i := 0 to n
        invariant fresh(a) && a.blockSize == blockSize && a.arenaId == id
        invariant |a.blocks| == i + 1 && a.curBlock == 0 && a.offset == 0 && a.memory == map[]
        invariant forall k :: 0 <= k <= i ==> a.blocks[k] == Block(BlockLayout(blockSize), bases[k])
      {
        a.AllocBlock(bases[i + 1]);
      }
    }

    /**
     * `Arena::with_capacity(n)`: `with_blocks` of the least block count that
     * covers `n` bytes, so the blocks after the first hold at least `n` bytes.
     * A zero `BLOCK_SIZE` divides by zero in the source.
     */
    static method WithCapacity(blockSize: nat, id: nat, n: nat, bases: seq<nat>) returns (a: Arena)
      requires blockSize > 0 && |bases| == CapacityBlocks(n, blockSize) + 1
      ensures fresh(a) && a.Valid() && a.blockSize == blockSize && a.arenaId == id
      ensures |a.blocks| == CapacityBlocks(n, blockSize) + 1 && a.curBlock == 0 && a.offset == 0
      ensures (|a.blocks| - 1) * blockSize >= n && a.memory == map[]
      ensures forall i :: 0 <= i < |a.blocks| ==> a.blocks[i] == Block(BlockLayout(blockSize), bases[i])
    {
      var k := n / blockSize + if n % blockSize == 0 then 0 else 1;
      assert k == CapacityBlocks(n, blockSize);
      a := WithBlocks(blockSize, id, k, bases);
    }

    /** `alloc_block`: append a normal block at `base`. */
    method AllocBlock(base: nat)
      modifies this
      ensures blocks == old(blocks) + [Block(BlockLayout(blockSize), base)]
      ensures curBlock == old(curBlock) && offset == old(offset) && memory == old(memory)
    {
      blocks := blocks + [Block(BlockLayout(blockSize), base)];
    }

    /** `next_block` */
    method NextBlock(sysBase: nat)
      requires Valid()
      modifies this
      ensures Valid() && State() == StepToNextBlock(old(State()), blockSize, sysBase)
      ensures memory == old(memory)
    {
      curBlock := curBlock + 1;
      if curBlock >= |blocks| {
        AllocBlock(sysBase);
      }
      offset := 0;
    }

    /** `make_space_for_layout` */
    method MakeSpaceForLayout(layout: Layout, sysBase: nat) returns (ptr: nat)
      requires Valid() && ValidLayout(layout)
      modifies this
      ensures Valid() && (State(), ptr) == PlaceInBlocks(old(State()), blockSize, layout, sysBase)
      ensures memory == old(memory)
    {
      var base := blocks[curBlock].base;
      var pad := AlignPad(base + offset, layout.align);
      if offset + pad + layout.size > blockSize {
        NextBlock(sysBase);
        base := blocks[curBlock].base;
        pad := AlignPad(base + offset, layout.align);
      }
      ptr := base + offset + pad;
      offset := offset + pad + layout.size;
    }

    /**
     * The oversized path's bookkeeping: insert the personal block at `base` so
     * that it is the second to last one, and bump `cur_block`.
     */
    method InsertPersonalBlock(layout: Layout, base: nat)
      requires Valid()
      modifies this
      ensures Valid() && State() == InsertPersonal(old(State()), layout, base)
      ensures memory == old(memory)
    {
      var last := |blocks| - 1;
      blocks := blocks[..last] + [Block(layout, base)] + blocks[last..];
      curBlock := curBlock + 1;
    }

    /**
     * `alloc_memcpy`: copy `val`, the bytes of a value whose type has
     * alignment `align`, into the arena and return a ref to the copy. A value
     * at least a block long gets a personal block, inserted at index
     * |blocks|-1 while `cur_block` is bumped.
     */
    method AllocMemcpy(val: seq<byte>, align: nat, sysBase: nat) returns (r: Ref)
      requires Valid() && IsPow2(align)
      modifies this
      ensures Valid() && (State(), AsPtr(r).addr) == Place(old(State()), blockSize, Layout(|val|, align), sysBase)
      ensures r == References.New(arenaId, Ptr(AsPtr(r).addr, |val|))
      ensures memory == WriteBytes(old(memory), AsPtr(r).addr, val)
      ensures Get(r) == Some(val)
    {
      var layout := Layout(|val|, align);
      if layout.size >= blockSize {
        var block := sysBase;
        memory := WriteBytes(memory, block, val);
        InsertPersonalBlock(layout, block);
        r := References.New(arenaId, Ptr(block, |val|));
        ResolveAfterWrite(arenaId, old(memory), block, val);
        return;
      }
      var ptr := MakeSpaceForLayout(layout, sysBase);
      memory := WriteBytes(memory, ptr, val);
      r := References.New(arenaId, Ptr(ptr, |val|));
      ResolveAfterWrite(arenaId, old(memory), ptr, val);
    }

    /** `alloc`: move the value into the arena (`alloc_memcpy`, then forget the original). */
    method Alloc(val: seq<byte>, align: nat, sysBase: nat) returns (r: Ref)
      requires Valid() && IsPow2(align)
      modifies this
      ensures Valid() && (State(), AsPtr(r).addr) == Place(old(State()), blockSize, Layout(|val|, align), sysBase)
      ensures r == References.New(arenaId, Ptr(AsPtr(r).addr, |val|))
      ensures memory == WriteBytes(old(memory), AsPtr(r).addr, val)
      ensures Get(r) == Some(val)
    {
      r := AllocMemcpy(val, align, sysBase);
    }

    /**
     * `alloc_str`: the same algorithm on the UTF-8 bytes of `s`, alignment 1;
     * the ref's length is the byte length.
     */
    method AllocStr(s: string, sysBase: nat) returns (r: Ref)
      requires Valid()
      modifies this
      ensures Valid() && (State(), AsPtr(r).addr) == Place(old(State()), blockSize, Layout(|Utf8(s)|, 1), sysBase)
      ensures r == References.New(arenaId, Ptr(AsPtr(r).addr, |Utf8(s)|))
      ensures memory == WriteBytes(old(memory), AsPtr(r).addr, Utf8(s))
      ensures Get(r) == Some(Utf8(s))
    {
      r := AllocMemcpy(Utf8(s), 1, sysBase);
    }

    /** `Arena::get` */
    function Get(r: Ref): (v: Option<seq<byte>>)
      reads this
      ensures v.None? <==> ArenaId(r) != arenaId
      ensures v.Some? ==> v.value == ReadBytes(memory, AsPtr(r).addr, AsPtr(r).len)
    {
      Resolve(arenaId, memory, r)
    }

    /**
     * `Arena::get_mut`, followed by storing `v` (a value of the ref's type,
     * so of its length) through the reference it returns.
     */
    method GetMut(r: Ref, v: seq<byte>) returns (found: bool)
      requires |v| == AsPtr(r).len
      modifies this
      ensures found <==> ArenaId(r) == arenaId
      ensures memory == if found then WriteBytes(old(memory), AsPtr(r).addr, v) else old(memory)
      ensures State() == old(State())
      ensures found ==> Get(r) == Some(v)
    {
      if r.id != arenaId {
        return false;
      }
      memory := WriteBytes(memory, r.ptr.addr, v);
      ResolveAfterWrite(arenaId, old(memory), r.ptr.addr, v);
      found := true;
    }

    /**
     * `clear`: write from the start of the first block again. Refs issued
     * before it keep resolving: `get` compares ids only, so it answers
     * `Some` of whatever bytes sit at the pointer, now or after they are
     * overwritten by later allocations.
     */
    method Clear()
      requires Valid()
      modifies this
      ensures Valid() && State() == Cleared(old(State()))
      ensures memory == old(memory)
      ensures forall r :: Get(r) == old(Get(r))
    {
      curBlock := 0;
      offset := 0;
    }
  }
}
