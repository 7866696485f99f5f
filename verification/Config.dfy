/** Constants of the kernel, and two datatypes the other modules share. */
module Config {

  datatype Option<+T> = None | Some(value: T)

  const OS_MAX_TASKS: nat := 64
  const IDLE_PRIO: nat := 63
  const NUM_DEVICES: nat := 63
  const OS_NUM_MUTEX: nat := 32

  const EPERM: int := 1
  const ENOMEM: int := 12
  const EFAULT: int := 14
  const EINVAL: int := 22
  const EDEADLOCK: int := 58
  const ESCHED: int := 100

  /** Unsigned long is 32 bits wide. */
  const TWO32: nat := 0x1_0000_0000

  /** dev_freq: the initialiser gives four entries, C makes the other 59 zero. */
  function DevFreq(d: nat): (f: nat)
    ensures f < TWO32
  {
    if d == 0 then 100 else if d == 1 then 200 else if d == 2 then 500 else if d == 3 then 50 else 0
  }
}
