/**
 * The provenance token of the arena (src/reference.rs): the id of the arena
 * that issued it and the pointer it carries. src/arena.rs declares a distinct
 * type of the same shape (its `arena_id` is `id` here); the model has one
 * datatype for both.
 */
module References {

  /**
   * A `NonNull<T>`: the address, and the length in bytes of what it points to.
   * For `str` the length is the fat pointer's metadata; for a sized `T` it is
   * `size_of::<T>()`, the same for every pointer of that type. Comparing two
   * pointers compares both parts.
   */
  datatype Ptr = Ptr(addr: nat, len: nat)

  datatype Ref = Ref(id: nat, ptr: Ptr)

  /** `Ref::new`: keeps both fields as given. */
  function New(id: nat, ptr: Ptr): (r: Ref)
    ensures ArenaId(r) == id && AsPtr(r) == ptr
  {
    Ref(id, ptr)
  }

  /** `Ref::arena_id` */
  function ArenaId(r: Ref): nat
  {
    r.id
  }

  /** `Ref::as_ptr` */
  function AsPtr(r: Ref): Ptr
  {
    r.ptr
  }

  /** `Clone for Ref`: a copy that compares equal to the original. */
  function Clone(r: Ref): (c: Ref)
    ensures Eq(c, r) && ArenaId(c) == ArenaId(r) && AsPtr(c) == AsPtr(r)
  {
    Ref(r.id, r.ptr)
  }

  /** `PartialEq for Ref`: field-wise, so it coincides with equality of the values. */
  function Eq(a: Ref, b: Ref): (r: bool)
    ensures r <==> a == b
    ensures a.id != b.id ==> !r
  {
    a.id == b.id && a.ptr == b.ptr
  }

  /**
   * `Hash for Ref`: what is fed to the hasher, in order: the id, then the
   * address (the cast to `*mut ()` drops the length).
   */
  function HashInput(r: Ref): (h: seq<nat>)
    ensures |h| == 2 && h[0] == ArenaId(r) && h[1] == AsPtr(r).addr
  {
    [r.id, r.ptr.addr]
  }

  /** `Eq for Ref` promises an equivalence relation. */
  lemma EqIsEquivalence(a: Ref, b: Ref, c: Ref)
    ensures Eq(a, a)
    ensures Eq(a, b) <==> Eq(b, a)
    ensures Eq(a, b) && Eq(b, c) ==> Eq(a, c)
  {
  }

  /** Equal refs feed the hasher the same input, as `Hash` and `Eq` must agree. */
  lemma EqualRefsHashAlike(a: Ref, b: Ref)
    requires Eq(a, b)
    ensures HashInput(a) == HashInput(b)
  {
  }

  /** Refs of two containers are never equal, even when the pointers coincide. */
  lemma DistinctIdsNeverEqual(a: Ref, b: Ref)
    requires a.id != b.id && a.ptr == b.ptr
    ensures !Eq(a, b) && HashInput(a) != HashInput(b)
  {
  }
}
