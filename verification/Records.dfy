/** The monitor record as both ends of the message queue see it. */
module Records {
  import opened Domains

  /** Operations with a branch of their own; every other OP_TYPE is `Other`. */
  datatype OpType = OPEN | CLOSE | Other(code: nat)

  const FD_NONE := -1
  const DEVICE_LEN := 10

  datatype Record = Record(dom: Domain, op: OpType, fd: int, s1: string, timestamp: nat, device: string)
}
