/**
 * `ShipType`, the static table of ship definitions, and `EquipSet`, a
 * ship's equipment: one vector of equipment entries per slot.
 */
module ShipTypes {
  import opened Wrappers
  import opened EquipSlots

  /** An `Equip::Type` enumerator. */
  type EquipType = nat

  /** `Equip::NONE`, the empty entry. Its value is fixed outside this model and left open here. */
  const NONE: EquipType

  /** `Equip::SLOT_MAX`, the number of slots. Its value is fixed outside this model and left open here. */
  const SLOT_MAX: nat

  /** The value a value-initialised `Equip::Type` holds. */
  const VALUE_INITIALISED: EquipType := 0

  /** One ship definition; `equipSlotCapacity` has one entry per slot. */
  datatype ShipType = ShipType(
    name: string,
    lmrModelName: string,
    equipSlotCapacity: seq<int>,
    capacity: int,
    hullMass: int,
    baseprice: int,
    hyperdrive: EquipType)

  /** `ShipType::Get`: the definition stored under `name`, or null when there is none. */
  function Get(types: map<string, ShipType>, name: string): (r: Option<ShipType>)
    ensures r.None? <==> name !in types
    ensures r.Some? ==> r.value == types[name]
  {
    if name in types then Some(types[name]) else None
  }

  /**
   * `ShipType::types[t].equipSlotCapacity[i]`: on a missing `t`, `operator[]`
   * inserts a value-initialised definition, whose capacities are all 0.
   */
  function SlotCapacity(types: map<string, ShipType>, t: string, i: nat): (n: int)
    requires i < SLOT_MAX
    requires t in types ==> |types[t].equipSlotCapacity| == SLOT_MAX
    ensures t !in types ==> n == 0
    ensures t in types ==> n == types[t].equipSlotCapacity[i]
  {
    if t in types then types[t].equipSlotCapacity[i] else 0
  }

  class EquipSet {
    /** `EquipType::types[e].slot`: the slot an equipment type goes in. */
    const slotOf: EquipType -> nat
    /** `equip[Equip::SLOT_MAX]`: one vector per slot. */
    const equip: array<seq<EquipType>>
    /** How many times `onChange` has been emitted. */
    var onChangeEmits: nat

    ghost predicate Valid() {
      equip.Length == SLOT_MAX && forall e :: slotOf(e) < SLOT_MAX
    }

    /** `EquipSet()`: every slot empty. */
    constructor (slotOf: EquipType -> nat)
      requires forall e :: slotOf(e) < SLOT_MAX
      ensures Valid() && this.slotOf == slotOf && fresh(equip)
      ensures forall s :: 0 <= s < SLOT_MAX ==> equip[s] == []
      ensures onChangeEmits == 0
    {
      this.slotOf := slotOf;
      equip := new seq<EquipType>[SLOT_MAX](_ => []);
      onChangeEmits := 0;
    }

    /** Sizes every slot from ship type `t`'s capacities, filled with value-initialised entries. */
    method InitSlotSizes(types: map<string, ShipType>, t: string)
      requires Valid()
      requires t in types ==> |types[t].equipSlotCapacity| == SLOT_MAX
      requires t in types ==> forall i :: 0 <= i < SLOT_MAX ==> types[t].equipSlotCapacity[i] >= 0
      modifies this, equip
      ensures forall i :: 0 <= i < SLOT_MAX ==>
        GetSlotSize(i) == SlotCapacity(types, t, i) && equip[i] == seq(SlotCapacity(types, t, i), _ => VALUE_INITIALISED)
      ensures onChangeEmits == old(onChangeEmits) + 1
    {
      for i := 0 to SLOT_MAX
        invariant forall k :: 0 <= k < i ==> equip[k] == seq(SlotCapacity(types, t, k), _ => VALUE_INITIALISED)
        invariant onChangeEmits == old(onChangeEmits)
      {
        equip[i] := seq(SlotCapacity(types, t, i), _ => VALUE_INITIALISED);
      }
      onChangeEmits := onChangeEmits + 1;
    }

    function GetSlotSize(s: nat): (n: nat)
      requires Valid() && s < SLOT_MAX
      reads equip
      ensures n == |equip[s]|
    {
      |equip[s]|
    }

    /** The first entry of slot `s`, or `NONE` if the slot has no room at all. */
    function GetFirst(s: nat): (e: EquipType)
      requires Valid() && s < SLOT_MAX
      reads equip
      ensures |equip[s]| == 0 ==> e == NONE
      ensures |equip[s]| > 0 ==> e == equip[s][0]
    {
      if |equip[s]| == 0 then NONE else equip[s][0]
    }

    /** `Get(s, idx)`; the vector is indexed unchecked, so `idx` must be in range. */
    function GetAt(s: nat, idx: nat): (e: EquipType)
      requires Valid() && s < SLOT_MAX && idx < |equip[s]|
      reads equip
      ensures e == equip[s][idx] && e in equip[s]
    {
      equip[s][idx]
    }

    /** Overwrites one entry and emits `onChange`. */
    method Set(s: nat, idx: nat, e: EquipType)
      requires Valid() && s < SLOT_MAX && idx < |equip[s]|
      modifies this, equip
      ensures equip[s] == old(equip[s])[idx := e]
      ensures forall t :: 0 <= t < SLOT_MAX && t != s ==> equip[t] == old(equip[t])
      ensures forall t :: 0 <= t < SLOT_MAX ==> GetSlotSize(t) == old(GetSlotSize(t))
      ensures onChangeEmits == old(onChangeEmits) + 1
    {
      equip[s] := equip[s][idx := e];
      onChangeEmits := onChangeEmits + 1;
    }

    /**
     * Puts `e` into the first `num` free entries of its slot (all of them if
     * `num < 0`) and says whether all `num` fitted; emits `onChange` when
     * anything was placed.
     */
    method Add(e: EquipType, num: int) returns (ok: bool)
      requires Valid()
      modifies this, equip
      ensures equip[slotOf(e)] == ReplaceFirst(old(equip[slotOf(e)]), NONE, e, num)
      ensures forall t :: 0 <= t < SLOT_MAX && t != slotOf(e) ==> equip[t] == old(equip[t])
      ensures forall t :: 0 <= t < SLOT_MAX ==> GetSlotSize(t) == old(GetSlotSize(t))
      ensures ok <==> 0 <= num <= multiset(old(equip[slotOf(e)]))[NONE]
      ensures onChangeEmits == old(onChangeEmits) + if ReplacedCount(old(equip[slotOf(e)]), NONE, num) > 0 then 1 else 0
    {
      var s := slotOf(e);
      ghost var slot := equip[s];
      var numDone := 0;
      var i := 0;
      while i < |equip[s]|
        invariant 0 <= i <= |slot| == |equip[s]|
        invariant equip[s] == ReplaceFirst(slot[..i], NONE, e, num) + slot[i..]
        invariant numDone == ReplacedCount(slot[..i], NONE, num)
        invariant forall t :: 0 <= t < SLOT_MAX && t != s ==> equip[t] == old(equip[t])
        invariant onChangeEmits == old(onChangeEmits)
      {
        if numDone == num {
          ReplaceStop(slot, i, NONE, e, num);
          break;
        }
        ReplaceStep(slot, equip[s], i, NONE, e, num);
        if equip[s][i] == NONE {
          equip[s] := equip[s][i := e];
          numDone := numDone + 1;
        }
        i := i + 1;
      }
      if i == |slot| {
        assert slot[..i] == slot;
      }
      ReplacedCountIsCapped(slot, NONE, num);
      if numDone != 0 {
        onChangeEmits := onChangeEmits + 1;
      }
      ok := numDone == num;
    }

    /** `Add(e)`: `Add(e, 1)`. */
    method AddOne(e: EquipType) returns (ok: bool)
      requires Valid()
      modifies this, equip
      ensures equip[slotOf(e)] == ReplaceFirst(old(equip[slotOf(e)]), NONE, e, 1)
      ensures forall t :: 0 <= t < SLOT_MAX && t != slotOf(e) ==> equip[t] == old(equip[t])
      ensures ok <==> NONE in old(equip[slotOf(e)])
      ensures onChangeEmits == old(onChangeEmits) + if ok then 1 else 0
    {
      ok := Add(e, 1);
      ReplacedCountIsCapped(old(equip[slotOf(e)]), NONE, 1);
    }

    /**
     * Empties the first `num` entries holding `e` (all of them if `num < 0`),
     * returns how many it emptied, and always emits `onChange`.
     */
    method Remove(e: EquipType, num: int) returns (removed: nat)
      requires Valid()
      modifies this, equip
      ensures equip[slotOf(e)] == ReplaceFirst(old(equip[slotOf(e)]), e, NONE, num)
      ensures forall t :: 0 <= t < SLOT_MAX && t != slotOf(e) ==> equip[t] == old(equip[t])
      ensures forall t :: 0 <= t < SLOT_MAX ==> GetSlotSize(t) == old(GetSlotSize(t))
      ensures removed == ReplacedCount(old(equip[slotOf(e)]), e, num)
      ensures removed == if num < 0 || multiset(old(equip[slotOf(e)]))[e] <= num then multiset(old(equip[slotOf(e)]))[e] else num
      ensures onChangeEmits == old(onChangeEmits) + 1
    {
      var s := slotOf(e);
      ghost var slot := equip[s];
      ghost var num0 := num;
      var left := num;
      var numDone := 0;
      var i := 0;
      while i < |equip[s]|
        invariant 0 <= i <= |slot| == |equip[s]|
        invariant equip[s] == ReplaceFirst(slot[..i], e, NONE, num0) + slot[i..]
        invariant numDone == ReplacedCount(slot[..i], e, num0)
        invariant left == num0 - numDone
        invariant forall t :: 0 <= t < SLOT_MAX && t != s ==> equip[t] == old(equip[t])
        invariant onChangeEmits == old(onChangeEmits)
      {
        if left == 0 {
          ReplaceStop(slot, i, e, NONE, num0);
          break;
        }
        ReplaceStep(slot, equip[s], i, e, NONE, num0);
        if equip[s][i] == e {
          equip[s] := equip[s][i := NONE];
          left := left - 1;
          numDone := numDone + 1;
        }
        i := i + 1;
      }
      if i == |slot| {
        assert slot[..i] == slot;
      }
      ReplacedCountIsCapped(slot, e, num0);
      onChangeEmits := onChangeEmits + 1;
      removed := numDone;
    }

    /** The number of entries of slot `s` holding `e`. */
    method Count(s: nat, e: EquipType) returns (num: nat)
      requires Valid() && s < SLOT_MAX
      ensures num == multiset(equip[s])[e]
    {
      num := 0;
      var i := 0;
      while i < |equip[s]|
        invariant 0 <= i <= |equip[s]|
        invariant num == multiset(equip[s][..i])[e]
      {
        assert equip[s][..i + 1] == equip[s][..i] + [equip[s][i]];
        if equip[s][i] == e {
          num := num + 1;
        }
        i := i + 1;
      }
      assert equip[s][..i] == equip[s];
    }

    /** The number of free (`NONE`) entries of slot `s`. */
    method FreeSpace(s: nat) returns (free: nat)
      requires Valid() && s < SLOT_MAX
      ensures free == multiset(equip[s])[NONE]
    {
      free := 0;
      var i := 0;
      while i < |equip[s]|
        invariant 0 <= i <= |equip[s]|
        invariant free == multiset(equip[s][..i])[NONE]
      {
        assert equip[s][..i + 1] == equip[s][..i] + [equip[s][i]];
        if equip[s][i] == NONE {
          free := free + 1;
        }
        i := i + 1;
      }
      assert equip[s][..i] == equip[s];
    }
  }
}
