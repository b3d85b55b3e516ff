/**
 * The stream handle table `g_streams[256]` of kui/src/filesystem.c:9-30.
 * Handle 0 means "no handle"; handles 1..255 index slots, each with an
 * `in_use` flag and a `FILE*`. A stream is named here by a number.
 */
module Handles {
  import opened Wrappers

  const Capacity: nat := 256

  /** `KuiStream`: the in-use flag and the stream, `None` for NULL. */
  datatype Slot = Slot(inUse: bool, fp: Option<nat>)

  /** A zero-initialised slot, as the static array starts out and as `free_handle` leaves it. */
  const Empty: Slot := Slot(false, None)

  /** A handle that indexes a slot: `h > 0 && h < 256`. */
  predicate InRange(h: int)
  {
    0 < h < Capacity
  }

  /**
   * The table's own invariant: 256 slots, slot 0 never used, and a slot
   * that is not in use holds no stream.
   */
  predicate TableOk(s: seq<Slot>)
  {
    |s| == Capacity && !s[0].inUse && forall j :: 0 <= j < |s| && !s[j].inUse ==> s[j].fp == None
  }

  /** The zero-initialised table. */
  function EmptyTable(): (s: seq<Slot>)
    ensures TableOk(s)
  {
    seq(Capacity, _ => Empty)
  }

  // ---------------------------------------------------------------------
  // Specification on values
  // ---------------------------------------------------------------------

  /** The handle the ascending scan of `alloc_handle` stops at, starting at `i`, or 0. */
  function FirstFreeFrom(s: seq<Slot>, i: nat): (h: nat)
    requires |s| == Capacity && 1 <= i <= Capacity
    ensures h == 0 || i <= h < Capacity
    decreases Capacity - i
  {
    if i == Capacity then 0
    else if !s[i].inUse then i
    else FirstFreeFrom(s, i + 1)
  }

  function FirstFree(s: seq<Slot>): nat
    requires |s| == Capacity
  {
    FirstFreeFrom(s, 1)
  }

  /** `alloc_handle` on values: the new table and the handle. */
  function AllocStep(s: seq<Slot>): (r: (seq<Slot>, nat))
    requires |s| == Capacity
  {
    var h := FirstFree(s);
    if h == 0 then (s, 0) else (s[h := s[h].(inUse := true)], h)
  }

  /** `free_handle` on values. */
  function FreeStep(s: seq<Slot>, h: int): seq<Slot>
    requires |s| == Capacity
  {
    if InRange(h) then s[h := Empty] else s
  }

  /** `get_fp` on values. */
  function Lookup(s: seq<Slot>, h: int): Option<nat>
    requires |s| == Capacity
  {
    if InRange(h) && s[h].inUse then s[h].fp else None
  }

  // ---------------------------------------------------------------------
  // Properties
  // ---------------------------------------------------------------------

  /** The scan from `i` finds the lowest free slot at or after `i`, or 0 when there is none. */
  lemma {:induction false} FirstFreeFromLowest(s: seq<Slot>, i: nat)
    requires |s| == Capacity && 1 <= i <= Capacity
    ensures var h := FirstFreeFrom(s, i);
      (h != 0 ==> !s[h].inUse) &&
      (forall j :: i <= j < Capacity && (h == 0 || j < h) ==> s[j].inUse)
    decreases Capacity - i
  {
    if i < Capacity && s[i].inUse {
      FirstFreeFromLowest(s, i + 1);
    }
  }

  /**
   * `alloc_handle` returns the lowest free handle in [1, 256), or 0 exactly
   * when all 255 are in use.
   */
  lemma FirstFreeIsLowest(s: seq<Slot>)
    requires |s| == Capacity
    ensures var h := FirstFree(s);
      (h == 0 || (InRange(h) && !s[h].inUse)) &&
      (forall j :: InRange(j) && (h == 0 || j < h) ==> s[j].inUse) &&
      (h == 0 <==> forall j :: InRange(j) ==> s[j].inUse)
  {
    FirstFreeFromLowest(s, 1);
  }

  /** Allocation marks only the returned slot, and keeps the table's invariant. */
  lemma AllocOnlyMarks(s: seq<Slot>)
    requires TableOk(s)
    ensures var (t, h) := AllocStep(s);
      TableOk(t) && |t| == Capacity &&
      (h == 0 ==> t == s) &&
      (h != 0 ==> InRange(h) && !s[h].inUse && t[h] == Slot(true, None)) &&
      (forall j :: 0 <= j < Capacity && j != h ==> t[j] == s[j])
  {
    FirstFreeIsLowest(s);
  }

  /** Freeing changes only slot `h`, and only for `h` in (0, 256). */
  lemma FreeOnlyClears(s: seq<Slot>, h: int)
    requires TableOk(s)
    ensures var t := FreeStep(s, h);
      TableOk(t) &&
      (!InRange(h) ==> t == s) &&
      (InRange(h) ==> t[h] == Empty) &&
      (forall j :: 0 <= j < Capacity && j != h ==> t[j] == s[j])
  {
  }

  /** A repeated free changes nothing more. */
  lemma FreeIdempotent(s: seq<Slot>, h: int)
    requires |s| == Capacity
    ensures FreeStep(FreeStep(s, h), h) == FreeStep(s, h)
  {
  }

  /** After `free_handle(h)` the handle resolves to no stream; other handles are unaffected. */
  lemma LookupAfterFree(s: seq<Slot>, h: int, g: int)
    requires |s| == Capacity
    ensures Lookup(FreeStep(s, h), h) == None
    ensures g != h ==> Lookup(FreeStep(s, h), g) == Lookup(s, g)
  {
  }

  /** Freeing the handle just allocated gives back the table as it was. */
  lemma FreeUndoesAlloc(s: seq<Slot>)
    requires TableOk(s)
    ensures var (t, h) := AllocStep(s);
      FreeStep(t, h) == s
  {
    var (t, h) := AllocStep(s);
    FirstFreeIsLowest(s);
    if h != 0 {
      assert FreeStep(t, h) == s[h := Empty];
      assert s[h] == Empty;
    }
  }

  /** The table after `k` allocations from the empty one: slots 1..k in use, the rest empty. */
  predicate FilledUpTo(s: seq<Slot>, k: nat)
  {
    |s| == Capacity &&
    forall j :: 0 <= j < Capacity ==> s[j] == (if 1 <= j <= k then Slot(true, None) else Empty)
  }

  /** `n` allocations in a row: the final table and the handles returned, in order. */
  function AllocMany(s: seq<Slot>, n: nat): (r: (seq<Slot>, seq<nat>))
    requires |s| == Capacity
    ensures |r.0| == Capacity && |r.1| == n
  {
    if n == 0 then (s, [])
    else
      var (t, hs) := AllocMany(s, n - 1);
      var (u, h) := AllocStep(t);
      (u, hs + [h])
  }

  lemma AllocNext(s: seq<Slot>, k: nat)
    requires k < Capacity - 1 && FilledUpTo(s, k)
    ensures AllocStep(s).1 == k + 1 && FilledUpTo(AllocStep(s).0, k + 1)
  {
    assert s[k + 1] == Empty;
    FirstFreeIsLowest(s);
  }

  lemma {:induction false} AllocManyFills(n: nat)
    requires n < Capacity
    ensures var (t, hs) := AllocMany(EmptyTable(), n);
      FilledUpTo(t, n) && forall k :: 0 <= k < n ==> hs[k] == k + 1
  {
    if n > 0 {
      AllocManyFills(n - 1);
      var (t, hs) := AllocMany(EmptyTable(), n - 1);
      AllocNext(t, n - 1);
    }
  }

  /**
   * 255 allocations from the empty table return the handles 1, 2, ..., 255
   * in order, and the next one returns 0 and changes nothing.
   */
  lemma FillTable()
    ensures var (t, hs) := AllocMany(EmptyTable(), Capacity - 1);
      (forall k :: 0 <= k < Capacity - 1 ==> hs[k] == k + 1) &&
      AllocStep(t) == (t, 0)
  {
    AllocManyFills(Capacity - 1);
    var (t, hs) := AllocMany(EmptyTable(), Capacity - 1);
    FirstFreeIsLowest(t);
  }

  // ---------------------------------------------------------------------
  // The table in place
  // ---------------------------------------------------------------------

  /** `g_streams`: the slots are updated in place by the operations below. */
  class HandleTable {
    const slots: array<Slot>

    predicate Valid()
      reads this, slots
    {
      TableOk(slots[..])
    }

    /** The zero-initialised static array. */
    constructor ()
      ensures Valid() && fresh(slots) && slots[..] == EmptyTable()
    {
      slots := new Slot[Capacity](_ => Empty);
    }

    /** `alloc_handle`: ascending first-fit scan over slots 1..255. */
    method Alloc() returns (h: nat)
      requires Valid()
      modifies slots
      ensures Valid()
      ensures (slots[..], h) == AllocStep(old(slots[..]))
    {
      ghost var s := slots[..];
      FirstFreeIsLowest(s);
      AllocOnlyMarks(s);
      var i := 1;
      while i < Capacity
        invariant 1 <= i <= Capacity && slots[..] == s
        invariant forall j :: 1 <= j < i ==> s[j].inUse
      {
        if !slots[i].inUse {
          slots[i] := slots[i].(inUse := true);
          h := i;
          return;
        }
        i := i + 1;
      }
      h := 0;
    }

    /** `free_handle`: clears slot `h` when `h` is in (0, 256). */
    method Free(h: int)
      requires Valid()
      modifies slots
      ensures Valid()
      ensures slots[..] == FreeStep(old(slots[..]), h)
    {
      if h > 0 && h < Capacity {
        slots[h] := Empty;
      }
    }

    /** `get_fp`: the stream of a live handle. */
    function GetFp(h: int): (fp: Option<nat>)
      requires Valid()
      reads this, slots
      ensures fp == Lookup(slots[..], h)
    {
      if h > 0 && h < Capacity && slots[h].inUse then slots[h].fp else None
    }

    /** `g_streams[h].fp = fp` for a slot the caller has just allocated. */
    method SetFp(h: nat, fp: nat)
      requires Valid() && InRange(h) && slots[h].inUse
      modifies slots
      ensures Valid()
      ensures slots[..] == old(slots[..])[h := Slot(true, Some(fp))]
    {
      slots[h] := Slot(true, Some(fp));
    }
  }
}
