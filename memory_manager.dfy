/**
 * The memory keys: one accumulator (`currentMemory`, a numeric string) and named slots kept in a
 * JavaScript `Map`, created as `M1`–`M4` holding `'0'`. The accumulator arithmetic goes through
 * `parseFloat` and back to a string; here the sum and the difference are parameters.
 */
module Memory {
  import opened Wrappers
  import opened OrderedMap

  /** The slots a new manager holds: `M1`–`M4` set to `'0'`, in that order, on an empty map. */
  const InitialSlots: seq<(string, string)> := Put(Put(Put(Put([], "M1", "0"), "M2", "0"), "M3", "0"), "M4", "0")

  /** `memorySlots.get(slot) || '0'`: an unknown slot and a slot holding `''` both read as `'0'`. */
  function SlotValue(slots: seq<(string, string)>, slot: string): (r: string)
    ensures r != ""
    ensures Has(slots, slot) && Get(slots, slot).value != "" ==> r == Get(slots, slot).value
    ensures !Has(slots, slot) ==> r == "0"
  {
    OrElse(Get(slots, slot), "0")
  }

  /** The four initial slots are exactly `M1`–`M4`, each reading `'0'`; every other slot is unset. */
  lemma InitialSlotsShape()
    ensures KeysUnique(InitialSlots)
    ensures forall k :: Has(InitialSlots, k) <==> k == "M1" || k == "M2" || k == "M3" || k == "M4"
    ensures forall k :: SlotValue(InitialSlots, k) == "0"
  {
    forall k
      ensures Has(InitialSlots, k) <==> k == "M1" || k == "M2" || k == "M3" || k == "M4"
      ensures SlotValue(InitialSlots, k) == "0"
    {
      InitialSlotGet(k);
    }
  }

  /** Reading a slot of a new manager: `'0'` for `M1`–`M4`, nothing for every other name. */
  lemma InitialSlotGet(k: string)
    ensures Get(InitialSlots, k) == if k == "M1" || k == "M2" || k == "M3" || k == "M4" then Some("0") else None
  {
    var m1 := Put([], "M1", "0");
    var m2 := Put(m1, "M2", "0");
    var m3 := Put(m2, "M3", "0");
    assert Get([], k) == None;
  }

  class MemoryManager {
    var memorySlots: seq<(string, string)>
    var currentMemory: string

    ghost predicate Valid()
      reads this
    {
      KeysUnique(memorySlots)
    }

    /** A new manager: slots `M1`–`M4` at `'0'`, the accumulator at `'0'`. */
    constructor ()
      ensures Valid()
      ensures memorySlots == InitialSlots && currentMemory == "0"
    {
      currentMemory := "0";
      memorySlots := [];
      new;
      InitializeSlots();
      InitialSlotsShape();
    }

    /** `initializeSlots`: sets `M1`–`M4` to `'0'`, in that order. */
    method InitializeSlots()
      modifies this
      ensures memorySlots == Put(Put(Put(Put(old(memorySlots), "M1", "0"), "M2", "0"), "M3", "0"), "M4", "0")
      ensures currentMemory == old(currentMemory)
    {
      memorySlots := Put(memorySlots, "M1", "0");
      memorySlots := Put(memorySlots, "M2", "0");
      memorySlots := Put(memorySlots, "M3", "0");
      memorySlots := Put(memorySlots, "M4", "0");
    }

    /** `memoryAdd`: the accumulator becomes `sum(current, value)`; the slots stay as they are. */
    method MemoryAdd(value: string, sum: (string, string) -> string)
      modifies this
      ensures currentMemory == sum(old(currentMemory), value)
      ensures memorySlots == old(memorySlots)
    {
      currentMemory := sum(currentMemory, value);
    }

    /** `memorySubtract`: the accumulator becomes `difference(current, value)`; the slots stay. */
    method MemorySubtract(value: string, difference: (string, string) -> string)
      modifies this
      ensures currentMemory == difference(old(currentMemory), value)
      ensures memorySlots == old(memorySlots)
    {
      currentMemory := difference(currentMemory, value);
    }

    /** `memoryRecall`. */
    method MemoryRecall() returns (r: string)
      ensures r == currentMemory
    {
      r := currentMemory;
    }

    /** `memoryClear`: the accumulator back to `'0'`, the slots untouched. */
    method MemoryClear()
      modifies this
      ensures currentMemory == "0" && memorySlots == old(memorySlots)
    {
      currentMemory := "0";
    }

    /** `memoryStore`: the value kept verbatim, the slots untouched. */
    method MemoryStore(value: string)
      modifies this
      ensures currentMemory == value && memorySlots == old(memorySlots)
    {
      currentMemory := value;
    }

    /** `storeInSlot`: sets the slot (created if new); the accumulator is untouched. */
    method StoreInSlot(slot: string, value: string)
      requires Valid()
      modifies this
      ensures Valid()
      ensures memorySlots == Put(old(memorySlots), slot, value)
      ensures currentMemory == old(currentMemory)
    {
      memorySlots := Put(memorySlots, slot, value);
    }

    /** `recallFromSlot`. */
    method RecallFromSlot(slot: string) returns (r: string)
      ensures r == SlotValue(memorySlots, slot)
    {
      r := OrElse(Get(memorySlots, slot), "0");
    }

    /** `clearSlot`: sets the slot to `'0'`, creating it if absent; the accumulator is untouched. */
    method ClearSlot(slot: string)
      requires Valid()
      modifies this
      ensures Valid()
      ensures memorySlots == Put(old(memorySlots), slot, "0")
      ensures currentMemory == old(currentMemory)
    {
      memorySlots := Put(memorySlots, slot, "0");
    }

    /** `getAllSlots`: a copy equal to the slot map. */
    method GetAllSlots() returns (r: seq<(string, string)>)
      ensures r == memorySlots
    {
      r := memorySlots;
    }

    /** `hasMemory`: a string comparison with `'0'`, not a numeric test. */
    method HasMemory() returns (b: bool)
      ensures b <==> currentMemory != "0"
    {
      b := currentMemory != "0";
    }
  }

  /** After `storeInSlot(s, v)` the slot reads `v`, or `'0'` for `''`; the other slots read as before. */
  lemma {:induction false} StoreThenRecall(slots: seq<(string, string)>, slot: string, value: string)
    ensures SlotValue(Put(slots, slot, value), slot) == if value == "" then "0" else value
    ensures forall s :: s != slot ==> SlotValue(Put(slots, slot, value), s) == SlotValue(slots, s)
  {
  }

  /** A cleared slot reads `'0'` and exists afterwards, whether or not it existed before. */
  lemma {:induction false} ClearThenRecall(slots: seq<(string, string)>, slot: string)
    ensures Has(Put(slots, slot, "0"), slot) && SlotValue(Put(slots, slot, "0"), slot) == "0"
  {
  }
}
