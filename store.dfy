/**
 * The typed, append-only store of src/store.rs: a vector of values and an id,
 * handing out handles that name a slot by index.
 */
module Stores {
  import opened Wrappers

  /** `Handle<T>`: the id of the issuing store and a slot index. */
  datatype Handle = Handle(storeId: nat, idx: nat)

  /** `Clone for Handle` */
  function HandleClone(h: Handle): (c: Handle)
    ensures HandleEq(c, h)
  {
    Handle(h.storeId, h.idx)
  }

  /** `PartialEq for Handle`: both the store id and the index must match. */
  function HandleEq(a: Handle, b: Handle): (r: bool)
    ensures r <==> a == b
    ensures a.storeId != b.storeId ==> !r
  {
    a.storeId == b.storeId && a.idx == b.idx
  }

  /** `Hash for Handle`: the store id, then the index. */
  function HandleHashInput(h: Handle): (s: seq<nat>)
    ensures |s| == 2 && s[0] == h.storeId && s[1] == h.idx
  {
    [h.storeId, h.idx]
  }

  /** Equal handles feed the hasher the same input. */
  lemma EqualHandlesHashAlike(a: Handle, b: Handle)
    requires HandleEq(a, b)
    ensures HandleHashInput(a) == HandleHashInput(b)
  {
  }

  /** `PartialEq for Handle` is an equivalence relation. */
  lemma HandleEqIsEquivalence(a: Handle, b: Handle, c: Handle)
    ensures HandleEq(a, a)
    ensures HandleEq(a, b) <==> HandleEq(b, a)
    ensures HandleEq(a, b) && HandleEq(b, c) ==> HandleEq(a, c)
  {
  }

  /**
   * What `get` answers for handle `h` against a store with id `id` holding
   * `values`: nothing for a foreign handle, otherwise the slot it names. The
   * index is not checked in the source (`values[idx]` panics when out of
   * range), so a handle bearing this id must name an existing slot.
   */
  function Lookup<T>(id: nat, values: seq<T>, h: Handle): (r: Option<T>)
    requires h.storeId == id ==> h.idx < |values|
    ensures r.None? <==> h.storeId != id
    ensures r.Some? ==> r.value == values[h.idx]
  {
    if h.storeId != id then None else Some(values[h.idx])
  }

  /**
   * The handle issued for `v` keeps resolving to `v` however many values are
   * appended afterwards: appending never moves a slot.
   */
  lemma HandleOutlivesGrowth<T>(id: nat, values: seq<T>, v: T, later: seq<T>)
    ensures Lookup(id, values + [v] + later, Handle(id, |values|)) == Some(v)
  {
    assert (values + [v] + later)[|values|] == v;
  }

  /** A handle of another store never resolves, whatever the slot it names. */
  lemma ForeignHandleNeverResolves<T>(id: nat, values: seq<T>, h: Handle)
    requires h.storeId != id
    ensures Lookup(id, values, h) == None
  {
  }

  class Store<T> {
    const storeId: nat
    var values: seq<T>
    /** The handles this store has issued so far. */
    ghost var issued: set<Handle>

    /** Every issued handle carries this store's id and names an existing slot. */
    ghost predicate Valid()
      reads this
    {
      forall h :: h in issued ==> h.storeId == storeId && h.idx < |values|
    }

    /** `Store::new`; `id` is the value the process-wide counter hands out. */
    constructor New(id: nat)
      ensures Valid() && storeId == id && values == [] && issued == {}
    {
      storeId := id;
      values := [];
      issued := {};
    }

    /** `Store::with_capacity`: the reservation is not observable. */
    constructor WithCapacity(id: nat, capacity: nat)
      ensures Valid() && storeId == id && values == [] && issued == {}
    {
      storeId := id;
      values := [];
      issued := {};
    }

    /** `Store::alloc`: push `v`, hand out the handle of the new last slot. */
    method Alloc(v: T) returns (h: Handle)
      requires Valid()
      modifies this
      ensures Valid()
      ensures values == old(values) + [v]
      ensures h == Handle(storeId, |values| - 1)
      ensures issued == old(issued) + {h}
      ensures Get(h) == Some(v)
      ensures forall g :: g in old(issued) ==> Get(g) == old(Get(g))
    {
      values := values + [v];
      h := Handle(storeId, |values| - 1);
      issued := issued + {h};
    }

    /**
     * `Store::get`. Handle fields are private and ids are unique, so a handle
     * bearing this store's id is one this store issued.
     */
    function Get(h: Handle): (r: Option<T>)
      reads this
      requires Valid() && (h.storeId == storeId ==> h in issued)
      ensures r.None? <==> h.storeId != storeId
      ensures r.Some? ==> r.value == values[h.idx]
    {
      Lookup(storeId, values, h)
    }

    /** `Store::get_mut`, followed by storing `v` through the reference it returns. */
    method GetMut(h: Handle, v: T) returns (found: bool)
      requires Valid() && (h.storeId == storeId ==> h in issued)
      modifies this
      ensures Valid() && issued == old(issued)
      ensures found <==> h.storeId == storeId
      ensures values == if found then old(values)[h.idx := v] else old(values)
      ensures found ==> Get(h) == Some(v)
      ensures forall g :: g in issued && g.idx != h.idx ==> Get(g) == old(Get(g))
    {
      if h.storeId != storeId {
        return false;
      }
      values := values[h.idx := v];
      found := true;
    }
  }
}
