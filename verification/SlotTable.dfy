/** Slots as the scheduler sees them (crates/orch-sched/src/slots.rs): what is occupied, reserved and free. */
module SlotTable {
  import opened Base

  type SlotId = nat
  type Waiter = nat

  datatype SlotState = Unspecified | Empty | Paused | Running | Frozen | Faulted

  /** Slots the worker reports as occupied. */
  function LiveSlots(known: map<SlotId, SlotState>): set<SlotId> {
    set id | id in known && known[id] != Empty
  }

  function Live(known: map<SlotId, SlotState>): u32 {
    Min(|LiveSlots(known)|, U32_MAX)
  }

  function Busy(reserved: u32, known: map<SlotId, SlotState>): u32 {
    Max(reserved, Live(known))
  }

  function Free(capacity: u32, reserved: u32, known: map<SlotId, SlotState>): u32 {
    Max(capacity - Busy(reserved, known), 0)
  }
}
