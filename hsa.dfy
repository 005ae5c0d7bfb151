/** The parts of the HSA runtime interface that the engine relies on: status
    codes, handle and integer widths, and the information the runtime reports
    about agents and memory regions. Every runtime call is a foreign call; its
    outcome enters the model as a value of the types below. */
module Hsa {
  import opened Bits

  const TWO_16: nat := 0x1_0000
  const TWO_32: nat := 0x1_0000_0000
  const TWO_63: nat := 0x8000_0000_0000_0000
  const TWO_64: nat := 0x1_0000_0000_0000_0000

  type u16 = x: int | 0 <= x < TWO_16
  type u32 = x: int | 0 <= x < TWO_32
  type u64 = x: int | 0 <= x < TWO_64
  type i32 = x: int | -0x8000_0000 <= x < 0x8000_0000
  type i64 = x: int | -0x8000_0000_0000_0000 <= x < TWO_63

  /** hsa_status_t: an enumeration code. */
  type Status = nat

  const SUCCESS: Status := 0x0
  const STATUS_ERROR: Status := 0x1000
  const STATUS_ERROR_INVALID_ARGUMENT: Status := 0x1001

  /** A status that is not HSA_STATUS_SUCCESS. */
  type Failure = s: Status | s != SUCCESS witness STATUS_ERROR

  datatype Option<T> = None | Some(value: T)

  /** The outcome of a runtime call that writes a value through an out-pointer:
      either it succeeded and wrote `value`, or it failed with `status`. */
  datatype Answer<T> = Granted(value: T) | Refused(status: Failure)
  {
    /** The status the call returned. */
    function StatusOf(): Status {
      match this
      case Granted(_) => SUCCESS
      case Refused(s) => s
    }
  }

  /** hsa_device_type_t */
  datatype DeviceType = Cpu | Gpu | Dsp

  /** hsa_region_segment_t */
  datatype Segment = Global | Readonly | Private | Group | Kernarg

  /** hsa_region_global_flag_t bits. */
  const FLAG_KERNARG: nat := 1
  const FLAG_FINE_GRAINED: nat := 2
  const FLAG_COARSE_GRAINED: nat := 4

  /** An agent as the runtime enumerates it: its handle and the answer to the
      HSA_AGENT_INFO_DEVICE query. */
  datatype AgentInfo = AgentInfo(handle: u64, device: Answer<DeviceType>)

  /** A region as the runtime enumerates it: its handle, the answer to the
      HSA_REGION_INFO_SEGMENT query, the global flag word and the
      host-accessible flag (those two queries' statuses are not inspected). */
  datatype RegionInfo = RegionInfo(handle: u64, segment: Answer<Segment>, flags: u32, hostAccessible: bool)

  /** A queue capacity: a power of two that fits in the queue's 32-bit size. */
  type QueueSize = n: nat | IsPow2(n) && n < TWO_32 witness 1

  /** hsa_signal_value_t (int64_t) from an unsigned 64-bit value, as the
      static_cast converts it. */
  function ToSigned64(v: u64): (r: i64)
    ensures r % TWO_64 == v % TWO_64
    ensures v < TWO_63 ==> r == v
  {
    if v < TWO_63 then v else v - TWO_64
  }
}
