/** The serialized slot maps shared by both file versions (`slot::SerdeSlot`, `slot::SlotMap`). */
module Slots {
  import opened Wrappers

  /** One slot of a component column: an optional value and the slot's `u32` version. */
  datatype Slot<T> = Slot(value: Option<T>, version: nat)

  /** `SlotMap<T>`: a column of slots, indexed by stroke key. */
  type SlotMap<T> = seq<Slot<T>>
}
