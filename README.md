# HSA dispatch engine and box-blur kernels, in Dafny

This project models the host side of a minimal AMD GPU launcher built on the
HSA runtime, and the two 3x3 box-blur device kernels that come with it.

The host side (`main.cpp`) is the `Engine` class and its helpers:

- `init` brings the runtime up. It finds the GPU and CPU agents, creates a
  queue and a completion signal, and classifies the GPU's memory regions.
- `setup_dispatch` reserves a slot of the AQL queue and fills it. It also
  loads the code object, builds and freezes an executable, resolves the
  kernel symbol and allocates the kernel-argument buffer.
- `dispatch` publishes the packet's 32-bit header word with one store and
  rings the doorbell.
- `wait` waits for the completion signal to become 0.
- `kernel()` drives one launch of the `meaning.kd` kernel.

Every runtime call is a foreign call. Its outcome is an input of the model:
a status, or an `Answer` that is either the value the runtime wrote or a
failure status. The model then states what the engine does for every
possible sequence of answers:

- which status each operation returns;
- which engine fields end up holding which handles;
- what every ring slot holds;
- which allocations were requested;
- the order of every host write to the ring slots, the argument buffer and
  the doorbell, kept as a log of `Write`s. The write-index increment is
  kept as the `writeIndex` field, not in the log.

The device side (`kernels/003-image-blur.c`) is `image_blur_monochrome` and
`image_blur_rgb`. One method call is one work-item. It computes its pixel
from the work-group builtins (unsigned 32-bit, wrapping), returns when the
pixel lies outside the image, and otherwise writes the integer average of
the in-bounds pixels of its 3x3 neighbourhood. The nested loops are proved
equal to functional definitions (`Blurred`, `BlurredChannel`). Separate
lemmas prove the following:

- the neighbour count is 1 to 9, so the division is safe;
- the count is 4 at a corner, 6 on an edge and 9 inside;
- the result is the floor of the average and fits a byte;
- a constant image is left unchanged;
- each RGB channel is the monochrome blur of its colour plane.

Modules:

- `Bits`: C's unsigned `&` on naturals. Masking by `s - 1` is reduction
  modulo a power of two `s`.
- `Hsa`: status codes, integer widths, runtime answers, agent and region
  descriptions.
- `Aql`: the kernel-dispatch packet, the header encoding, the
  dimensionality rule, the slot mask and the write log.
- `Discovery`: reference definitions of how the two enumeration callbacks
  classify agents and regions. Selection is last-wins.
- `HsaEngine`: the `Engine` class, the callbacks, the allocation wrappers
  and `kernel()`.
- `ImageBlur`: the two kernels.

The model follows the code as written:

- The last enumerated GPU agent becomes `agent_`, and the last CPU agent
  becomes `cpu_agent_` (main.cpp:275-282).
- `wait` waits for the signal to EQUAL 0 (main.cpp:242). A signal
  decremented past 0 does not satisfy that condition (`HsaEngine.Engine.Wait`).
- Dimensionality counts an extent only when it exceeds 1 (main.cpp:225-229).
- The argument buffer is `size()` bytes and is not zero-filled
  (main.cpp:175, 357).
- A successful `setup_dispatch` returns 0 (main.cpp:185).

The `memset` in `setup_dispatch` (main.cpp:121-122) is modelled as written.
It does pointer arithmetic on a packet pointer, so it zeroes the first 60
bytes of the packet four slots after the reserved one, not the reserved
slot. When that slot is past the end of the ring, the write is recorded in
the log and leaves the ring unchanged. `HsaEngine.Kernel` therefore ensures
that in a queue of more than four slots, a run that dispatches leaves slot
4's header at 0, which is no longer an INVALID packet.

## Model

| member | source | states |
|---|---|---|
| `Bits.MaskIsMod` | main.cpp:118-119 | masking an index with `size - 1` is the index modulo `size` when `size` is a power of two |
| `Hsa.ToSigned64` | main.cpp:236 | the `static_cast` of the 64-bit packet index to a signal value keeps it modulo 2^64, and unchanged below 2^63 |
| `Aql.ZeroFilled` | main.cpp:121-122 | zeroing the first 60 bytes of a packet clears every field but the upper half of `completion_signal`, which is kept |
| `Aql.DecodeEncode` | main.cpp:218-222 | decoding an encoded header gives back its type, barrier bit and fence scopes |
| `Aql.Dimensions` | main.cpp:225-229 | dimensionality is 1 to 3; it is 3 exactly when the Z extent exceeds 1, and at least 2 exactly when the Y or Z extent does |
| `Aql.HeaderWordLayout` | main.cpp:218-232 | the published word holds 0x1502 (kernel dispatch, barrier, system acquire and release scopes) in the low half and the dimensionality in the high half, and is not an INVALID packet |
| `Aql.Slot` | main.cpp:117-119 | the slot of a write index lies within the ring and is the index modulo the ring size |
| `Aql.SlotsDistinct` | main.cpp:117-119 | fewer than `size` successive reservations never share a slot |
| `Discovery.FirstAgentFailure` | main.cpp:270-273 | the agent traversal stops at the first agent whose device query fails, after every agent before it passed |
| `Discovery.LastOfTypeIsLast` | main.cpp:275-282 | the agent kept for a device type is the last enumerated agent of that type; with none, the field keeps its value |
| `Discovery.LaterAgentWins` | main.cpp:275-282 | one more agent of a type replaces the selection |
| `Discovery.OtherAgentKeeps` | main.cpp:275-282 | an agent of another type leaves the selection unchanged |
| `Discovery.FlagsAreBits` | main.cpp:304-318 | the kernarg, fine-grained and coarse-grained flags test bits 0, 1 and 2 of the flag word |
| `Discovery.NonGlobalFillsNothing` | main.cpp:292-294 | a region outside the GLOBAL segment fills no role |
| `Discovery.CoarseRegionOneLocalRole` | main.cpp:308-314 | a coarse-grained global region fills exactly one of the host-local and device-local roles |
| `Discovery.RegionMayFillSeveralRoles` | main.cpp:304-318 | the role tests are independent: one region can be the system, local and kernarg region at once |
| `Discovery.FirstRegionFailure` | main.cpp:288-290 | the region traversal stops at the first region whose segment query fails, after every region before it passed |
| `Discovery.LastInRoleIsLast` | main.cpp:302-318 | the region kept for a role is the last enumerated region filling it; with none, the field keeps its value |
| `Discovery.LaterRegionWins` | main.cpp:302-318 | one more region filling a role replaces it |
| `Discovery.OtherRegionKeeps` | main.cpp:302-318 | a region not filling a role leaves it unchanged |
| `HsaEngine.KernelDispatchConfig.Size` | main.cpp:70-72 | the argument size converted to `size_t` is the int modulo 2^64 |
| `HsaEngine.OurHsaAlloc` | main.cpp:38-47 | the allocation asks the given region for the given size; it yields the granted pointer, or null when the runtime refuses |
| `HsaEngine.OurHsaFree` | main.cpp:33-36 | a pointer is passed to `hsa_memory_free` exactly when it is not null |
| `HsaEngine.FreeOfAlloc` | main.cpp:33-47 | freeing what the allocation wrapper returned frees the granted pointer, and makes no runtime call after a refusal |
| `HsaEngine.SetupReturn` | main.cpp:135-185 | `setup_dispatch` returns 0 exactly when every runtime call succeeds, and -1 exactly when loading the binary fails |
| `HsaEngine.SetupSlot` | main.cpp:124-184 | what `setup_dispatch` leaves in the reserved slot for every runtime answer: completion signal, zero segment sizes, kernel object once resolved, kernarg address and configured sizes only on success, unit sizes otherwise; header and reserved fields untouched |
| `HsaEngine.Dispatched` | main.cpp:225-234 | a dispatched slot holds the kernel-dispatch header, the dimensionality of its grid and the kernel's group segment size; no other field changes |
| `HsaEngine.Engine.constructor` | main.cpp:79-81 | a new engine has every handle, size and index zero, no queue and no current slot |
| `HsaEngine.Engine.OpenQueue` | main.cpp:99-107 | the queue is created with the agent's maximum size, and the signal only after it exists; the status is success exactly when all three calls succeed |
| `HsaEngine.Engine.Init` | main.cpp:85-114 | `init` stops at the first failing call with HSA_STATUS_ERROR, returns -1 when no kernarg region was found and 0 otherwise; each field holds what the steps reached gave it |
| `HsaEngine.Engine.OpenAgent` | main.cpp:86-107 | the steps of `init` before the region iteration succeed exactly when that iteration is reached; the agents are the last GPU and CPU seen, the queue is new with all slots INVALID, and the regions are left alone |
| `HsaEngine.Engine.LoadBinFromFile` | main.cpp:196-215 | -1 when the file cannot be opened or the staging allocation is null, HSA_STATUS_ERROR when deserializing fails, 0 otherwise; the staging allocation is requested from the system region |
| `HsaEngine.Engine.InitializePacket` | main.cpp:124-133 | the reserved slot gets the completion signal, unit sizes and zero segment sizes; only that slot changes |
| `HsaEngine.Engine.ApplyConfig` | main.cpp:177-184 | the slot gets the kernarg address and the configured sizes, each reduced to its field width |
| `HsaEngine.Engine.ReserveSlot` | main.cpp:117-133 | the write index advances by one modulo 2^64, the current slot is the old index masked, slot + 4 is zero-filled when it exists, and the reserved slot is initialised |
| `HsaEngine.Engine.ResolveKernel` | main.cpp:135-169 | the executable, symbol and segment-size steps run in order and stop at the first failure; returns 0 exactly when all succeed |
| `HsaEngine.Engine.BindKernel` | main.cpp:171-185 | the kernel object is stored, `size()` bytes are requested from the kernarg region, and only a granted buffer leads to the configuration stores |
| `HsaEngine.Engine.SetupDispatch` | main.cpp:116-186 | `setup_dispatch`: the new index, the current slot, the return code, the contents of every slot, the write log and the allocations, for every runtime answer |
| `HsaEngine.Engine.KernargAddress` | main.cpp:188-190 | the kernarg pointer stored in the current slot |
| `HsaEngine.Engine.AllocLocal` | main.cpp:192-194 | `alloc_local` requests the size from the host-accessible local region |
| `HsaEngine.Engine.Dispatch` | main.cpp:217-239 | `dispatch` publishes the header word after the group segment size, then rings the doorbell with the packet index; only the current slot changes |
| `HsaEngine.Engine.Wait` | main.cpp:241-243 | the wait asks for EQUAL 0 on the completion signal with no timeout and an active wait, and returns the observed value; the requested condition holds of a value exactly when it is 0, so -1 does not satisfy it |
| `HsaEngine.GetAgentCallback` | main.cpp:266-285 | null data yields INVALID_ARGUMENT; a failing device query returns its status; otherwise a GPU agent sets `agent_`, a CPU agent sets `cpu_agent_`, and nothing else changes |
| `HsaEngine.GetRegionCallback` | main.cpp:287-321 | a failing segment query yields HSA_STATUS_ERROR; otherwise each role the region fills is set to it, and no other field changes |
| `HsaEngine.IterateAgentsWith` | main.cpp:89-90 | the agent traversal returns the first failing status, and leaves the last GPU and CPU agent seen before it stopped |
| `HsaEngine.IterateRegionsWith` | main.cpp:109-110 | the region traversal returns HSA_STATUS_ERROR at the first failing query, and leaves in each role the last region seen that fills it |
| `HsaEngine.SetupWritesUnpublished` | main.cpp:353-354 | a setup, successful or not, publishes no header and rings no doorbell |
| `HsaEngine.SetupFillsSlot` | main.cpp:124-184 | a successful setup assigns every field the code assigns (all but `reserved0` and `reserved2`, which the misdirected memset was meant to clear) and publishes no header |
| `HsaEngine.SetupSkipsReserved` | main.cpp:121-184 | setting a slot up never stores its `reserved0` or `reserved2` field |
| `HsaEngine.DispatchAfter` | main.cpp:230-236 | a dispatch after a filled, unpublished slot publishes the header once, after every field the code assigns, and writes nothing to the slot afterwards |
| `HsaEngine.SetupThenDispatch` | main.cpp:353-359 | setup, then writes that publish nothing, then dispatch follows the publication protocol |
| `HsaEngine.DispatchTail` | main.cpp:234-236 | the last two writes of a dispatch are the header word and the doorbell |
| `HsaEngine.KernelSlot` | main.cpp:345-359 | the slot `kernel()` dispatches holds the kernel object, the kernarg buffer, the signal, sizes {1, 0, 0} and a one-dimensional dispatch header |
| `HsaEngine.KernelLog` | main.cpp:353-359 | the writes of a dispatching `kernel()` run publish slot 0 last, ring the doorbell with 0, and copy the arguments before the dispatch |
| `HsaEngine.Prepare` | main.cpp:341-354 | on a new queue, `alloc_local(sizeof(float))` and then the setup reserve slot 0, return what `setup_dispatch` returns, and request the output, staging and argument buffers in that order |
| `HsaEngine.Launch` | main.cpp:357-359 | the argument copy and the dispatch publish the kernel's packet in slot 0 and change no other slot |
| `HsaEngine.RunKernel` | main.cpp:341-368 | after init returns 0: returns 0 exactly when setup succeeds and the wait observes 0, whatever `alloc_local` returned (see Left out); a failed setup publishes nothing; a successful one publishes the kernel's packet in slot 0; the allocations are the output, staging and argument buffers in order |
| `HsaEngine.Kernel` | main.cpp:324-369 | `kernel()` returns 0 exactly when init, setup and the wait succeed, whatever `alloc_local` returned (see Left out); a failure before the dispatch publishes nothing; a dispatching run publishes the kernel's packet in slot 0 and rings the doorbell last; slot 4 loses its INVALID header; the allocations are requested from the regions init found: the output float from the local region, then the staging buffer from the system region, then the argument buffer from the kernarg region, and none when init fails |
| `ImageBlur.Coordinate` | kernels/003-image-blur.c:7-10 | the pixel coordinate is the builtin expression modulo 2^32, equal to it when below 2^31 |
| `ImageBlur.IndexInImage` | kernels/003-image-blur.c:23-24 | an in-bounds neighbour's row-major index lies within the image |
| `ImageBlur.Index` | kernels/003-image-blur.c:24-30 | the row-major index of an in-bounds pixel, and its three RGB bytes, lie within the buffer |
| `ImageBlur.RowSumBound` | kernels/003-image-blur.c:19-27 | one row of the neighbourhood sums to at most 255 per counted pixel |
| `ImageBlur.SumBound` | kernels/003-image-blur.c:18-28 | the neighbourhood sums to at most 255 per counted pixel |
| `ImageBlur.AverageIsByte` | kernels/003-image-blur.c:30 | the quotient of such a sum by its positive count fits a byte |
| `ImageBlur.ChannelRowSumBound` | kernels/003-image-blur.c:51-62 | one row of a channel's neighbourhood sums to at most 255 per counted pixel |
| `ImageBlur.ChannelSumBound` | kernels/003-image-blur.c:50-63 | a channel's neighbourhood sums to at most 255 per counted pixel |
| `ImageBlur.Plane` | kernels/003-image-blur.c:56-59 | the colour plane of channel c holds byte 3i + c of the image at position i |
| `ImageBlur.RowCountIsSpan` | kernels/003-image-blur.c:19-26 | a row counts its in-range columns, or nothing when the row is outside the image |
| `ImageBlur.CountIsSpanProduct` | kernels/003-image-blur.c:18-28 | the count is the number of in-range columns times the number of in-range rows |
| `ImageBlur.WrappedCoordinate` | kernels/003-image-blur.c:7-10 | in a grid of fewer than 2^32 work-items, a coordinate that wraps negative is at most -2 |
| `ImageBlur.WrappedCoordinateCountsNothing` | kernels/003-image-blur.c:18-30 | a coordinate of -2 or less has no neighbour in the image, so the count stays 0 |
| `ImageBlur.CountPositive` | kernels/003-image-blur.c:14-30 | for an in-bounds pixel the count is between 1 and 9, so the division never divides by zero |
| `ImageBlur.CornerCount` | kernels/003-image-blur.c:18-28 | a corner pixel of an image at least 2x2 averages 4 pixels |
| `ImageBlur.EdgeCount` | kernels/003-image-blur.c:18-28 | a non-corner edge pixel averages 6 pixels |
| `ImageBlur.InteriorCount` | kernels/003-image-blur.c:18-28 | an interior pixel averages 9 pixels |
| `ImageBlur.BlurredIsFloorAverage` | kernels/003-image-blur.c:30 | the blurred value v satisfies count * v <= sum < count * (v + 1) |
| `ImageBlur.ConstantRowSum` | kernels/003-image-blur.c:19-27 | on a constant image one row sums to its count times the constant |
| `ImageBlur.ConstantSum` | kernels/003-image-blur.c:18-28 | on a constant image the neighbourhood sums to the count times the constant |
| `ImageBlur.ConstantImageUnchanged` | kernels/003-image-blur.c:14-30 | blurring a constant image gives back the constant |
| `ImageBlur.ChannelRowIsPlaneRow` | kernels/003-image-blur.c:51-62 | a channel's row sum is the row sum of its colour plane |
| `ImageBlur.ChannelSumIsPlaneSum` | kernels/003-image-blur.c:50-63 | a channel's neighbourhood sum is that of its colour plane |
| `ImageBlur.ChannelIsPlane` | kernels/003-image-blur.c:44-67 | each RGB output channel is the monochrome blur of that channel's plane |
| `ImageBlur.BlurMonochrome` | kernels/003-image-blur.c:4-31 | a work-item outside the image writes nothing; otherwise it writes exactly its own pixel, with the blurred input value |
| `ImageBlur.BlurMonoPixel` | kernels/003-image-blur.c:14-30 | the nested loops compute the neighbourhood sum and count, and the store writes their quotient to the pixel and nothing else |
| `ImageBlur.BlurRgb` | kernels/003-image-blur.c:34-68 | a work-item outside the image writes nothing; otherwise it writes exactly the three bytes of its pixel, each the blurred value of its channel |
| `ImageBlur.BlurRgbPixel` | kernels/003-image-blur.c:44-67 | the loops compute the three channel sums and the count, and the three stores write the quotients to the pixel's bytes and nothing else |

## Left out

- The HSA runtime's internals are inputs, not models. What each call
  returns and writes is a parameter: `InitAnswers`, `SetupAnswers`,
  `LoadAnswers`, `Answer` values and the observed signal value.
- The traversal order of `hsa_iterate_agents` and `hsa_agent_iterate_regions`
  is modelled as enumeration order, stopping at the first status that is not
  success, as the HSA runtime specifies. The runtime's choice of order is an
  input.
- File I/O in `load_bin_from_file` is reduced to whether the file opens and
  its size. The bytes read and copied into the staging buffer are not
  modelled, and neither is the code object built from them.
- The console output (`std::cout`, `std::cerr`, `hsa_status_string`) is
  left out, as are the agent name and the kernarg segment size, which are
  only printed. Their queries' statuses are modelled.
- The contents of the argument bytes (the device output pointer and the
  float 10) are left out. The memcpy is recorded as a write of
  `sizeof(args_t)` bytes to the kernarg buffer. The read of `*device_output`
  after the wait is not modelled.
- `hsa_region_get_info` for the flag word and the host-accessible bit has its
  status ignored by the source. The model takes the values reported.
- Memory ordering, the release semantics of the atomic header store and the
  device's packet processor are not modelled. The blocking wait is one
  call that returns the observed signal value. Concurrency between host and
  device, and between work-items, is not modelled.
- `HsaEngine.Engine.OpenQueue`: a newly created queue is taken to have write
  index 0, doorbell value 0 and every slot holding an INVALID packet. The
  source never reads these values. The model's conclusions that `kernel()`
  reserves slot 0 and that slot 4's header ends up 0 rely on them.
- `Hsa.QueueSize`: the queue size the agent reports is taken to be a power
  of two below 2^32. The HSA runtime promises this, and the mask at
  main.cpp:118-119 relies on it. `Bits.MaskIsMod` needs it to turn the mask
  into reduction modulo the size.
- `HsaEngine.Engine.Init`: the effect of a failed `hsa_queue_create` on
  `queue_` is taken to leave no queue.
- `HsaEngine.Engine.ReserveSlot`: a memset past the end of the ring is
  recorded in the log and changes no modelled state. The memory it clobbers
  outside the ring is not modelled.
- `HsaEngine.Kernel`: the destruction of the engine and `main`'s handling of
  the return value are not modelled. The result of `alloc_local` at
  main.cpp:341 is never checked. When it is null (the runtime refuses, or
  grants a null pointer), main.cpp:366 reads through a null pointer after a
  successful wait. That is undefined behaviour. The model returns 0 there,
  as if the read succeeded. So the 0 result does not promise that
  `device_output` was valid.
- `HsaEngine.RunKernel`: the same holds. Its 0 result does not depend on
  `localAlloc`, and a null output pointer read at main.cpp:366 is modelled
  as a return of 0.
- The other kernels (`001-vector-add.c`, `002-color-to-grayscale.c`,
  `004-matrix-multiply-naive.c`, `005-matrix-multiply-tiled.c`) are not part
  of this model.
- `ImageBlur.BlurMonochrome` requires non-negative pixel coordinates when
  neither coordinate is at or past the image's edge. A grid holds fewer
  than 2^32 work-items, so a coordinate that wraps negative is at most -2 (`ImageBlur.WrappedCoordinate`). A work-item whose other
  coordinate is at or past the image's edge returns at line 12, and the
  model covers it. A negative coordinate whose other coordinate is in range
  passes the test at line 12 and finds no in-range neighbour
  (`ImageBlur.WrappedCoordinateCountsNothing`). Line 30 then divides by a
  zero count. The model excludes this case.
- `ImageBlur.BlurMonochrome` requires buffers of at least width * height
  bytes and width * height at most 2^31, so that no index overflows an int.
  The source states no such bound, and without it some work-items' indices
  overflow an int.
- `ImageBlur.BlurRgb` has the same two requirements, with 3 * width * height
  bytes. A negative coordinate whose other coordinate is in range passes
  the test at line 42 and divides by a zero count at line 65.
- One method call models one work-item. The grid, the scheduling of
  work-items and the device builtins themselves are parameters.
