/** The Architected Queuing Language kernel-dispatch packet (section 2.9 of the
    HSA Platform System Architecture Specification) as the engine fills it:
    the 64-byte record, its fields and their widths, the 32-bit word holding
    `header` and `setup`, the dimensionality rule, and the ring-slot mask. */
module Aql {
  import opened Bits
  import opened Hsa

  /** hsa_kernel_dispatch_packet_t, field by field in layout order. */
  datatype Packet = Packet(
    header: bv16,
    setup: bv16,
    workgroupSizeX: u16, workgroupSizeY: u16, workgroupSizeZ: u16,
    reserved0: u16,
    gridSizeX: u32, gridSizeY: u32, gridSizeZ: u32,
    privateSegmentSize: u32,
    groupSegmentSize: u32,
    kernelObject: u64,
    kernargAddress: u64,
    reserved2: u64,
    completionSignal: u64)

  /** The fields other than the 32-bit header/setup word. */
  datatype Field =
    | WorkgroupSizeX | WorkgroupSizeY | WorkgroupSizeZ | Reserved0
    | GridSizeX | GridSizeY | GridSizeZ
    | PrivateSegmentSize | GroupSegmentSize
    | KernelObject | KernargAddress | Reserved2 | CompletionSignal

  /** Number of distinct values a field holds (2 to the power of its width in bits). */
  function Width(f: Field): nat {
    match f
    case WorkgroupSizeX | WorkgroupSizeY | WorkgroupSizeZ | Reserved0 => TWO_16
    case GridSizeX | GridSizeY | GridSizeZ | PrivateSegmentSize | GroupSegmentSize => TWO_32
    case KernelObject | KernargAddress | Reserved2 | CompletionSignal => TWO_64
  }

  function Get(p: Packet, f: Field): (v: nat)
    ensures v < Width(f)
  {
    match f
    case WorkgroupSizeX => p.workgroupSizeX
    case WorkgroupSizeY => p.workgroupSizeY
    case WorkgroupSizeZ => p.workgroupSizeZ
    case Reserved0 => p.reserved0
    case GridSizeX => p.gridSizeX
    case GridSizeY => p.gridSizeY
    case GridSizeZ => p.gridSizeZ
    case PrivateSegmentSize => p.privateSegmentSize
    case GroupSegmentSize => p.groupSegmentSize
    case KernelObject => p.kernelObject
    case KernargAddress => p.kernargAddress
    case Reserved2 => p.reserved2
    case CompletionSignal => p.completionSignal
  }

  /** The effect of `memset(packet, 0, sizeof(packet) - 4)` on one packet: the
      first 60 of its 64 bytes become zero, which on a little-endian host is
      every field except the upper half of `completion_signal`. */
  function ZeroFilled(p: Packet): (q: Packet)
    ensures q.header == 0 && q.setup == 0
    ensures forall f :: f != CompletionSignal ==> Get(q, f) == 0
    ensures q.completionSignal % TWO_32 == 0
    ensures q.completionSignal / TWO_32 == p.completionSignal / TWO_32
  {
    Packet(0, 0, 0, 0, 0, 0, 0, 0, 0, 0, 0, 0, 0, 0, (p.completionSignal / TWO_32) * TWO_32)
  }

  // hsa_packet_type_t, hsa_fence_scope_t and the hsa_packet_header_t bit offsets.
  const PACKET_TYPE_INVALID: bv16 := 1
  const PACKET_TYPE_KERNEL_DISPATCH: bv16 := 2
  const FENCE_SCOPE_SYSTEM: bv16 := 2
  const HEADER_TYPE: bv16 := 0
  const HEADER_BARRIER: bv16 := 8
  const HEADER_ACQUIRE_FENCE_SCOPE: bv16 := 9
  const HEADER_RELEASE_FENCE_SCOPE: bv16 := 11
  const SETUP_DIMENSIONS: bv16 := 0

  /** The packet every slot of a newly created queue holds: type INVALID
      (1, in the low byte of the header), everything else zero. */
  const InvalidPacket := Packet(1, 0, 0, 0, 0, 0, 0, 0, 0, 0, 0, 0, 0, 0, 0)

  /** The header fields the engine sets; each stays within its bit width. */
  datatype HeaderFields = HeaderFields(packetType: bv16, barrier: bv16, acquireScope: bv16, releaseScope: bv16)
  {
    predicate Fits() {
      packetType < 256 && barrier < 2 && acquireScope < 4 && releaseScope < 4
    }
  }

  /** Packs header fields into the 16-bit header. */
  function EncodeHeader(h: HeaderFields): bv16 {
    (h.packetType << HEADER_TYPE) | (h.barrier << HEADER_BARRIER)
    | (h.acquireScope << HEADER_ACQUIRE_FENCE_SCOPE) | (h.releaseScope << HEADER_RELEASE_FENCE_SCOPE)
  }

  /** Reads the header fields back out of a 16-bit header. */
  function DecodeHeader(w: bv16): (h: HeaderFields)
    ensures h.Fits()
  {
    HeaderFields((w >> HEADER_TYPE) & 0xFF, (w >> HEADER_BARRIER) & 1,
                 (w >> HEADER_ACQUIRE_FENCE_SCOPE) & 3, (w >> HEADER_RELEASE_FENCE_SCOPE) & 3)
  }

  lemma DecodeEncode(h: HeaderFields)
    requires h.Fits()
    ensures DecodeHeader(EncodeHeader(h)) == h
  {
  }

  /** The header the engine builds for every dispatch: a kernel-dispatch
      packet with the barrier bit and system-scope acquire and release fences. */
  const DispatchHeaderFields := HeaderFields(PACKET_TYPE_KERNEL_DISPATCH, 1, FENCE_SCOPE_SYSTEM, FENCE_SCOPE_SYSTEM)

  /** Dispatch dimensionality from the packet's grid extents: 3 if the Z extent
      exceeds 1, otherwise 2 if the Y extent does, otherwise 1. */
  function Dimensions(gridSizeY: u32, gridSizeZ: u32): (dim: bv16)
    ensures 1 <= dim <= 3
    ensures dim == 3 <==> gridSizeZ > 1
    ensures dim >= 2 <==> gridSizeY > 1 || gridSizeZ > 1
  {
    var d1: bv16 := 1;
    var d2 := if gridSizeY > 1 then 2 else d1;
    if gridSizeZ > 1 then 3 else d2
  }

  /** The 32-bit word stored atomically at the start of the packet: the
      header in the low half and `setup` (the dimensionality) in the high half. */
  function HeaderWord(dim: bv16): bv32 {
    var header := EncodeHeader(DispatchHeaderFields);
    var setup := dim << SETUP_DIMENSIONS;
    (header as bv32) | ((setup as bv32) << 16)
  }

  function LowHalf(w: bv32): bv16 { (w & 0xFFFF) as bv16 }
  function HighHalf(w: bv32): bv16 { (w >> 16) as bv16 }

  /** The published word carries 0x1502 in its low half (type KERNEL_DISPATCH,
      barrier, system acquire and release scopes) and the dimensionality in
      its high half. */
  lemma HeaderWordLayout(dim: bv16)
    ensures LowHalf(HeaderWord(dim)) == 0x1502
    ensures HighHalf(HeaderWord(dim)) == dim
    ensures DecodeHeader(LowHalf(HeaderWord(dim))) == DispatchHeaderFields
    ensures DecodeHeader(LowHalf(HeaderWord(dim))).packetType != PACKET_TYPE_INVALID
  {
  }

  /** The ring slot of a write index: `index & (size - 1)`. */
  function Slot(index: u64, size: QueueSize): (slot: nat)
    ensures slot < size
    ensures slot == index % size
  {
    MaskIsMod(index, size);
    BitAnd(index, size - 1)
  }

  /** Fewer than `size` successive reservations never share a slot. */
  lemma SlotsDistinct(i: u64, j: u64, size: QueueSize)
    requires i < j < i + size
    ensures Slot(i, size) != Slot(j, size)
  {
    DistinctResidues(i, j, size);
  }

  /** A write the host makes, in program order. */
  datatype Write =
    | Memset(slot: nat)                 // the memset; `slot` may lie past the ring
    | Store(slot: nat, field: Field)    // one field assignment
    | PublishHeader(slot: nat, word: bv32)  // the atomic header/setup store
    | CopyKernargs(address: u64, bytes: nat)  // memcpy into the kernarg buffer
    | RingDoorbell(value: i64)           // store to the queue's doorbell signal

  predicate Touches(w: Write, slot: nat) {
    match w
    case Memset(s) => s == slot
    case Store(s, _) => s == slot
    case PublishHeader(s, _) => s == slot
    case _ => false
  }

  /** The fields the engine assigns in the reserved slot before it publishes
      the header. */
  predicate FilledBefore(log: seq<Write>, slot: nat) {
    Store(slot, CompletionSignal) in log
    && Store(slot, WorkgroupSizeX) in log && Store(slot, WorkgroupSizeY) in log && Store(slot, WorkgroupSizeZ) in log
    && Store(slot, GridSizeX) in log && Store(slot, GridSizeY) in log && Store(slot, GridSizeZ) in log
    && Store(slot, GroupSegmentSize) in log && Store(slot, PrivateSegmentSize) in log
    && Store(slot, KernelObject) in log && Store(slot, KernargAddress) in log
  }

  /** The publication protocol for `slot`: at position `h` the header word is
      stored, every field the engine assigns was assigned before it (all but
      `reserved0` and `reserved2`), no earlier write published a
      header, and nothing after it writes to the slot. */
  predicate PublishedLast(log: seq<Write>, slot: nat, h: nat) {
    h < |log| && log[h].PublishHeader? && log[h].slot == slot
    && FilledBefore(log[..h], slot)
    && (forall k :: 0 <= k < h ==> !log[k].PublishHeader?)
    && (forall k :: h < k < |log| ==> !Touches(log[k], slot))
  }
}
