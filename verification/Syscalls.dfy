/** One observed system call, whichever side it was recorded on. */
module Syscalls {
  import opened Octets

  /** Which thread made the call, and its number; a name without a known number has a negative one. */
  datatype CallKey = CallKey(pid: nat, tid: nat, nr: int)

  /** The name the number stands for, the arguments as printed, and the two code addresses of a serial-log entry. */
  datatype Fields = Fields(name: string, args: seq<string>, rip: string, cr: string)

  /** The return is missing if the call never came back; the symbolic error is there on one side only. */
  datatype Call = Call(key: CallKey, fields: Fields, ret: Option<int>, errno: Option<string>)
}
