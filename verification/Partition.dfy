/** The flash map. */
module Partition {
  import opened Bytes
  import opened Flash
  import opened Metadata

  const SLOT_A_OFFSET := 0x040000
  const SLOT_A_SIZE := 0x180000
  const SLOT_B_OFFSET := 0x1C0000
  const SLOT_B_SIZE := 0x180000
  const METADATA_OFFSET := 0x340000
  const METADATA_SIZE := 0x010000

  function SlotOffset(slot: u32): nat {
    if slot == SLOT_A then SLOT_A_OFFSET else if slot == SLOT_B then SLOT_B_OFFSET else 0
  }

  function SlotCapacity(slot: u32): nat {
    if slot == SLOT_A then SLOT_A_SIZE else if slot == SLOT_B then SLOT_B_SIZE else 0
  }

  /** The bytes of a slot. */
  function SlotBytes(mem: Image, slot: u32): seq<byte> {
    mem[SlotOffset(slot)..SlotOffset(slot) + SlotCapacity(slot)]
  }

  /** Slots, metadata and device end do not overlap. */
  lemma RegionsAreDisjoint()
    ensures SLOT_A_OFFSET + SLOT_A_SIZE <= SLOT_B_OFFSET
    ensures SLOT_B_OFFSET + SLOT_B_SIZE <= METADATA_OFFSET
    ensures METADATA_OFFSET + METADATA_SIZE <= TOTAL_SIZE
  {
  }
}
