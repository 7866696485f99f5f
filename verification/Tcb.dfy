/** Task control blocks (kernel/include/task.h). */
module Tcbs {

  /** What a new task finds in its registers: entry point, argument and user stack
      pointer in r4 to r6, and the kernel stack pointer. The other saved registers start as zero. */
  datatype Context = Context(r4: nat, r5: nat, r6: nat, sp: nat)

  const ZERO_CONTEXT := Context(0, 0, 0, 0)

  class Tcb {
    /** The index of this block in system_tcb: two blocks are the same iff their slots are. */
    ghost const slot: nat
    var nativePrio: nat
    var curPrio: nat
    var context: Context
    /** One link for whichever wait queue the task is in. */
    var sleepQueue: Tcb?

    constructor (ghost slot: nat)
      ensures this.slot == slot
      ensures nativePrio == 0 && curPrio == 0 && context == ZERO_CONTEXT && sleepQueue == null
    {
      this.slot := slot;
      nativePrio, curPrio, context, sleepQueue := 0, 0, ZERO_CONTEXT, null;
    }
  }
}
