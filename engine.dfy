/** The host-side dispatch engine of main.cpp: discovery of the GPU agent and
    its memory regions, loading a code object, reserving and filling a slot of
    the AQL queue, publishing the packet and ringing the doorbell, and waiting
    on the completion signal. Every HSA runtime call is a foreign call; its
    outcome is an input (a status, a handle, an allocation answer). */
module HsaEngine {
  import opened Bits
  import opened Hsa
  import opened Aql
  import opened Discovery

  datatype Dim3 = Dim3(x: i32, y: i32, z: i32)

  /** Engine::KernelDispatchConfig */
  datatype KernelDispatchConfig = KernelDispatchConfig(
    codeFileName: string,
    kernelSymbol: string,
    gridSize: Dim3,
    workgroupSize: Dim3,
    kernelArgSize: i32)
  {
    /** size(): `kernel_arg_size_` (an int) converted to size_t, i.e. reduced
        modulo 2^64; a nonnegative size is kept as it is. */
    function Size(): (n: u64)
      ensures n == kernelArgSize % TWO_64
    {
      if kernelArgSize >= 0 then kernelArgSize else kernelArgSize + TWO_64
    }
  }

  /** A request made to hsa_memory_allocate: the region and the byte count. */
  datatype Allocation = Allocation(region: u64, size: u64)

  /** What one call of our_hsa_alloc asks for and what it yields. */
  datatype AllocCall = AllocCall(request: Allocation, ptr: u64)

  /** our_hsa_alloc: asks the runtime for `size` bytes of `region`; yields the
      pointer the runtime wrote, or null (0) when the runtime refused. */
  function OurHsaAlloc(size: u64, region: u64, answer: Answer<u64>): (c: AllocCall)
    ensures c.request == Allocation(region, size)
    ensures answer.Refused? ==> c.ptr == 0
    ensures answer.Granted? ==> c.ptr == answer.value
  {
    match answer
    case Granted(p) => AllocCall(Allocation(region, size), p)
    case Refused(_) => AllocCall(Allocation(region, size), 0)
  }

  /** our_hsa_free: the pointer handed to hsa_memory_free, if any; a null
      pointer is not passed on. */
  function OurHsaFree(mem: u64): (freed: Option<u64>)
    ensures freed.Some? <==> mem != 0
    ensures freed.Some? ==> freed.value == mem
  {
    if mem != 0 then Some(mem) else None
  }

  /** Freeing what our_hsa_alloc returned releases exactly the granted
      pointer, and makes no runtime call after a refused allocation. */
  lemma FreeOfAlloc(size: u64, region: u64, answer: Answer<u64>)
    ensures answer.Refused? ==> OurHsaFree(OurHsaAlloc(size, region, answer).ptr) == None
    ensures answer.Granted? && answer.value != 0 ==> OurHsaFree(OurHsaAlloc(size, region, answer).ptr) == Some(answer.value)
  {
  }

  // ---------------------------------------------------------------- init

  /** The runtime's answers to the calls `init` makes, in call order. */
  datatype InitAnswers = InitAnswers(
    hsaInit: Status,                 // hsa_init
    agents: seq<AgentInfo>,          // what hsa_iterate_agents enumerates
    agentName: Status,               // hsa_agent_get_info(NAME)
    queueMaxSize: Answer<QueueSize>, // hsa_agent_get_info(QUEUE_MAX_SIZE)
    queueCreate: Status,             // hsa_queue_create
    signalCreate: Answer<u64>,       // hsa_signal_create(1, ...)
    regions: seq<RegionInfo>)        // what hsa_agent_iterate_regions enumerates

  datatype InitStep = HsaInit | IterateAgents | AgentName | QueueMaxSize | QueueCreate | SignalCreate | IterateRegions

  function InitRank(s: InitStep): nat {
    match s
    case HsaInit => 0
    case IterateAgents => 1
    case AgentName => 2
    case QueueMaxSize => 3
    case QueueCreate => 4
    case SignalCreate => 5
    case IterateRegions => 6
  }

  /** The first step of `init` whose status is not success, if any. */
  function InitFailsAt(env: InitAnswers): Option<InitStep> {
    if env.hsaInit != SUCCESS then Some(HsaInit)
    else if AgentsStatus(env.agents) != SUCCESS then Some(IterateAgents)
    else if env.agentName != SUCCESS then Some(AgentName)
    else if env.queueMaxSize.Refused? then Some(QueueMaxSize)
    else if env.queueCreate != SUCCESS then Some(QueueCreate)
    else if env.signalCreate.Refused? then Some(SignalCreate)
    else if RegionsStatus(env.regions) != SUCCESS then Some(IterateRegions)
    else None
  }

  /** Step `s` of `init` runs: no earlier step failed. */
  predicate InitReached(env: InitAnswers, s: InitStep) {
    match InitFailsAt(env)
    case None => true
    case Some(f) => InitRank(s) <= InitRank(f)
  }

  // ------------------------------------------------------- setup_dispatch

  /** The answers behind load_bin_from_file: the file's size (None when it
      cannot be opened), the staging allocation from the system region, and
      hsa_code_object_deserialize. */
  datatype LoadAnswers = LoadAnswers(fileSize: Option<u64>, staging: Answer<u64>, codeObject: Answer<u64>)

  /** What load_bin_from_file returns. */
  function LoadReturn(ans: LoadAnswers): int {
    if ans.fileSize.None? then -1
    else if !(ans.staging.Granted? && ans.staging.value != 0) then -1
    else if ans.codeObject.Refused? then STATUS_ERROR
    else 0
  }

  /** The runtime's answers to the calls `setup_dispatch` makes, in call order. */
  datatype SetupAnswers = SetupAnswers(
    load: LoadAnswers,
    executableCreate: Answer<u64>,   // hsa_executable_create
    loadCodeObject: Status,          // hsa_executable_load_code_object
    freeze: Status,                  // hsa_executable_freeze
    symbol: Answer<u64>,             // hsa_executable_get_symbol
    kernelObject: Answer<u64>,       // symbol info KERNEL_OBJECT
    groupSegmentSize: Answer<u32>,   // symbol info KERNEL_GROUP_SEGMENT_SIZE
    kernargSegmentSize: Answer<u32>, // symbol info KERNEL_KERNARG_SEGMENT_SIZE (only printed)
    kernarg: Answer<u64>)            // hsa_memory_allocate from the kernarg region

  datatype SetupStep =
    LoadBinary | ExecutableCreate | LoadCodeObject | Freeze | GetSymbol
    | KernelObjectInfo | GroupSegmentInfo | KernargSegmentInfo | KernargAllocate

  function SetupRank(s: SetupStep): nat {
    match s
    case LoadBinary => 0
    case ExecutableCreate => 1
    case LoadCodeObject => 2
    case Freeze => 3
    case GetSymbol => 4
    case KernelObjectInfo => 5
    case GroupSegmentInfo => 6
    case KernargSegmentInfo => 7
    case KernargAllocate => 8
  }

  /** The first step of `setup_dispatch` after the reservation that fails. */
  function SetupFailsAt(ans: SetupAnswers): Option<SetupStep> {
    if LoadReturn(ans.load) != 0 then Some(LoadBinary)
    else if ans.executableCreate.Refused? then Some(ExecutableCreate)
    else if ans.loadCodeObject != SUCCESS then Some(LoadCodeObject)
    else if ans.freeze != SUCCESS then Some(Freeze)
    else if ans.symbol.Refused? then Some(GetSymbol)
    else if ans.kernelObject.Refused? then Some(KernelObjectInfo)
    else if ans.groupSegmentSize.Refused? then Some(GroupSegmentInfo)
    else if ans.kernargSegmentSize.Refused? then Some(KernargSegmentInfo)
    else if ans.kernarg.Refused? then Some(KernargAllocate)
    else None
  }

  /** Step `s` of `setup_dispatch` runs: no earlier step failed. */
  predicate SetupReached(ans: SetupAnswers, s: SetupStep) {
    match SetupFailsAt(ans)
    case None => true
    case Some(f) => SetupRank(s) <= SetupRank(f)
  }

  /** What `setup_dispatch` returns: -1 when loading the binary fails,
      HSA_STATUS_ERROR when a later runtime call fails, 0 on success. */
  function SetupReturn(ans: SetupAnswers): (r: int)
    ensures r == 0 <==> SetupFailsAt(ans).None?
    ensures r == -1 <==> SetupFailsAt(ans) == Some(LoadBinary)
  {
    match SetupFailsAt(ans)
    case None => 0
    case Some(LoadBinary) => -1
    case Some(_) => STATUS_ERROR
  }

  /** What `setup_dispatch` leaves in the reserved slot `p`: the completion
      signal, zero segment sizes and, until everything succeeds, unit sizes;
      the kernel object once the symbol queries succeed; the kernarg address
      and the configured sizes only on success. The header word and the
      reserved fields are not written. */
  function SetupSlot(p: Packet, signal: u64, cfg: KernelDispatchConfig, ans: SetupAnswers): (q: Packet)
    ensures q.header == p.header && q.setup == p.setup
    ensures q.reserved0 == p.reserved0 && q.reserved2 == p.reserved2
    ensures q.completionSignal == signal && q.privateSegmentSize == 0 && q.groupSegmentSize == 0
    ensures q.kernelObject == (if SetupReached(ans, KernargAllocate) then ans.kernelObject.value else p.kernelObject)
    ensures q.kernargAddress == (if SetupFailsAt(ans).None? then ans.kernarg.value else p.kernargAddress)
    ensures SetupFailsAt(ans).None? ==>
              q.workgroupSizeX == cfg.workgroupSize.x % TWO_16
              && q.workgroupSizeY == cfg.workgroupSize.y % TWO_16
              && q.workgroupSizeZ == cfg.workgroupSize.z % TWO_16
              && q.gridSizeX == cfg.gridSize.x % TWO_32
              && q.gridSizeY == cfg.gridSize.y % TWO_32
              && q.gridSizeZ == cfg.gridSize.z % TWO_32
    ensures SetupFailsAt(ans).Some? ==>
              q.workgroupSizeX == 1 && q.workgroupSizeY == 1 && q.workgroupSizeZ == 1
              && q.gridSizeX == 1 && q.gridSizeY == 1 && q.gridSizeZ == 1
  {
    var initial := p.(completionSignal := signal,
      workgroupSizeX := 1, workgroupSizeY := 1, workgroupSizeZ := 1,
      gridSizeX := 1, gridSizeY := 1, gridSizeZ := 1,
      groupSegmentSize := 0, privateSegmentSize := 0);
    if !SetupReached(ans, KernargAllocate) then initial
    else if ans.kernarg.Refused? then initial.(kernelObject := ans.kernelObject.value)
    else initial.(kernelObject := ans.kernelObject.value, kernargAddress := ans.kernarg.value,
      workgroupSizeX := cfg.workgroupSize.x % TWO_16,
      workgroupSizeY := cfg.workgroupSize.y % TWO_16,
      workgroupSizeZ := cfg.workgroupSize.z % TWO_16,
      gridSizeX := cfg.gridSize.x % TWO_32,
      gridSizeY := cfg.gridSize.y % TWO_32,
      gridSizeZ := cfg.gridSize.z % TWO_32)
  }

  /** The writes that reserve slot `s`: the memset, then the
      `initialize_packet` stores. */
  function ReserveWrites(s: nat): seq<Write> {
    [Memset(s + 4)] + InitialStores(s)
  }

  /** The writes once the kernel is resolved: the kernel object, then, when
      the kernarg buffer was allocated, the configuration stores. */
  function BindWrites(s: nat, kernarg: Answer<u64>): seq<Write> {
    [Store(s, KernelObject)] + (if kernarg.Granted? then ConfigStores(s) else [])
  }

  /** The writes of one `setup_dispatch` that reserves slot `s`, in order. */
  function SetupWrites(s: nat, ans: SetupAnswers): seq<Write> {
    ReserveWrites(s) + (if SetupReached(ans, KernargAllocate) then BindWrites(s, ans.kernarg) else [])
  }

  /** The writes of one `dispatch` of slot `s`: the group segment size, the
      header word `w`, the doorbell value `v`. */
  function DispatchWrites(s: nat, w: bv32, v: i64): seq<Write> {
    [Store(s, GroupSegmentSize), PublishHeader(s, w), RingDoorbell(v)]
  }

  /** The header word `dispatch` publishes for a slot holding `p`. */
  function DispatchWord(p: Packet): bv32 {
    HeaderWord(Dimensions(p.gridSizeY, p.gridSizeZ))
  }

  /** What `dispatch` leaves in a slot holding `p`: the kernel's group
      segment size, and the header word split into `header` and `setup`. */
  function Dispatched(p: Packet, groupSize: u32): (q: Packet)
    ensures q.header == LowHalf(DispatchWord(p)) && q.setup == HighHalf(DispatchWord(p))
    ensures DecodeHeader(q.header) == DispatchHeaderFields
    ensures q.setup == Dimensions(p.gridSizeY, p.gridSizeZ)
    ensures q.groupSegmentSize == groupSize
    ensures q.(header := p.header, setup := p.setup, groupSegmentSize := p.groupSegmentSize) == p
  {
    HeaderWordLayout(Dimensions(p.gridSizeY, p.gridSizeZ));
    p.(groupSegmentSize := groupSize, header := LowHalf(DispatchWord(p)), setup := HighHalf(DispatchWord(p)))
  }

  lemma AppendAssoc<T>(a: seq<T>, b: seq<T>, c: seq<T>)
    ensures a + b + c == a + (b + c)
  {
  }

  /** The staging allocation load_bin_from_file asks for, if the file opened. */
  function LoadAllocations(systemRegion: u64, load: LoadAnswers): seq<Allocation> {
    if load.fileSize.Some? then [Allocation(systemRegion, load.fileSize.value)] else []
  }

  /** The stores of the `initialize_packet` block, in program order. */
  function InitialStores(slot: nat): seq<Write> {
    [Store(slot, CompletionSignal),
     Store(slot, WorkgroupSizeX), Store(slot, WorkgroupSizeY), Store(slot, WorkgroupSizeZ),
     Store(slot, GridSizeX), Store(slot, GridSizeY), Store(slot, GridSizeZ),
     Store(slot, GroupSegmentSize), Store(slot, PrivateSegmentSize)]
  }

  /** The stores made once the kernarg buffer is allocated, in program order. */
  function ConfigStores(slot: nat): seq<Write> {
    [Store(slot, KernargAddress),
     Store(slot, WorkgroupSizeX), Store(slot, WorkgroupSizeY), Store(slot, WorkgroupSizeZ),
     Store(slot, GridSizeX), Store(slot, GridSizeY), Store(slot, GridSizeZ)]
  }

  // ----------------------------------------------------------------- wait

  /** hsa_signal_condition_t and hsa_wait_state_t */
  datatype Condition = ConditionEq | ConditionNe | ConditionLt | ConditionGte
  datatype WaitState = WaitBlocked | WaitActive

  /** The arguments of one hsa_signal_wait_acquire call. */
  datatype WaitRequest = WaitRequest(signal: u64, condition: Condition, compare: i64, timeoutHint: u64, state: WaitState)

  predicate ConditionHolds(c: Condition, value: int, compare: int) {
    match c
    case ConditionEq => value == compare
    case ConditionNe => value != compare
    case ConditionLt => value < compare
    case ConditionGte => value >= compare
  }

  // --------------------------------------------------------------- Engine

  class Engine {
    var agent: u64
    var cpuAgent: u64
    var queueSize: u32
    var hasQueue: bool              // queue_ is not null
    var ring: array<Packet>         // the queue's packet ring (queue_->base_address)
    var writeIndex: u64             // the queue's write index
    var doorbell: i64               // the value stored to queue_->doorbell_signal
    var signal: u64
    var systemRegion: u64
    var kernargRegion: u64
    var localRegion: u64
    var gpuLocalRegion: u64
    var aql: Option<nat>            // the slot aql_ points at; None while aql_ is null
    var packetIndex: u64
    var codeObject: u64
    var executable: u64
    var groupStaticSize: u32
    var log: seq<Write>             // the host's writes to the ring, kernarg buffer and doorbell
    var allocations: seq<Allocation> // the hsa_memory_allocate requests made, in order

    /** The ring of an existing queue has a power-of-two size that fits the
        queue's 32-bit size field, and aql_ points at the slot that the last
        reserved index masks to. */
    ghost predicate Valid()
      reads this
    {
      (hasQueue ==> IsPow2(ring.Length) && ring.Length < TWO_32)
      && (aql.Some? ==> hasQueue && IsPow2(ring.Length) && ring.Length < TWO_32
                        && aql.value == Slot(packetIndex, ring.Length))
    }

    constructor ()
      ensures Valid() && !hasQueue && aql.None?
      ensures agent == 0 && cpuAgent == 0 && queueSize == 0 && signal == 0
      ensures systemRegion == 0 && kernargRegion == 0 && localRegion == 0 && gpuLocalRegion == 0
      ensures packetIndex == 0 && codeObject == 0 && executable == 0 && groupStaticSize == 0
      ensures writeIndex == 0 && doorbell == 0 && log == [] && allocations == []
    {
      agent, cpuAgent, queueSize, hasQueue := 0, 0, 0, false;
      ring := new Packet[0](_ => InvalidPacket);
      writeIndex, doorbell, signal := 0, 0, 0;
      systemRegion, kernargRegion, localRegion, gpuLocalRegion := 0, 0, 0, 0;
      aql, packetIndex, codeObject, executable, groupStaticSize := None, 0, 0, 0, 0;
      log, allocations := [], [];
    }

    /** Every field but the two agent fields keeps its value. */
    twostate predicate OnlyAgentsChanged()
      reads this
    {
      queueSize == old(queueSize) && hasQueue == old(hasQueue) && ring == old(ring)
      && writeIndex == old(writeIndex) && doorbell == old(doorbell) && signal == old(signal)
      && systemRegion == old(systemRegion) && kernargRegion == old(kernargRegion)
      && localRegion == old(localRegion) && gpuLocalRegion == old(gpuLocalRegion)
      && aql == old(aql) && packetIndex == old(packetIndex) && codeObject == old(codeObject)
      && executable == old(executable) && groupStaticSize == old(groupStaticSize)
      && log == old(log) && allocations == old(allocations)
    }

    /** Every field but the four region fields keeps its value. */
    twostate predicate OnlyRegionsChanged()
      reads this
    {
      agent == old(agent) && cpuAgent == old(cpuAgent)
      && queueSize == old(queueSize) && hasQueue == old(hasQueue) && ring == old(ring)
      && writeIndex == old(writeIndex) && doorbell == old(doorbell) && signal == old(signal)
      && aql == old(aql) && packetIndex == old(packetIndex) && codeObject == old(codeObject)
      && executable == old(executable) && groupStaticSize == old(groupStaticSize)
      && log == old(log) && allocations == old(allocations)
    }

    /** The queue part of `init`: query the agent's maximum queue size,
        create a queue of that size and the completion signal (initial value
        1). A new queue's write index and doorbell are 0 and every slot holds
        an INVALID packet. */
    method OpenQueue(maxSize: Answer<QueueSize>, create: Status, signalCreate: Answer<u64>) returns (st: Status)
      requires Valid() && aql.None?
      modifies this`queueSize, this`ring, this`hasQueue, this`writeIndex, this`doorbell, this`signal
      ensures Valid() && aql.None?
      ensures st == SUCCESS <==> maxSize.Granted? && create == SUCCESS && signalCreate.Granted?
      ensures queueSize == (if maxSize.Granted? then maxSize.value else old(queueSize))
      ensures maxSize.Granted? && create == SUCCESS ==>
                hasQueue && fresh(ring) && ring.Length == queueSize && writeIndex == 0 && doorbell == 0
                && forall i :: 0 <= i < ring.Length ==> ring[i] == InvalidPacket
      ensures !(maxSize.Granted? && create == SUCCESS) ==>
                hasQueue == old(hasQueue) && ring == old(ring) && writeIndex == old(writeIndex) && doorbell == old(doorbell)
      ensures signal == (if st == SUCCESS then signalCreate.value else old(signal))
    {
      if maxSize.Refused? {
        return STATUS_ERROR;
      }
      var size: QueueSize := maxSize.value;
      queueSize := size;
      if create != SUCCESS {
        return STATUS_ERROR;
      }
      ring := new Packet[size](_ => InvalidPacket);
      hasQueue, writeIndex, doorbell := true, 0, 0;
      if signalCreate.Refused? {
        return STATUS_ERROR;
      }
      signal := signalCreate.value;
      return SUCCESS;
    }

    /** Engine::init: each runtime call in turn, stopping at the first that
        fails with HSA_STATUS_ERROR; -1 when no kernarg region was found. */
    method Init(env: InitAnswers) returns (r: int)
      requires Valid() && aql.None?
      modifies this
      ensures Valid() && aql.None?
      ensures r == (if InitFailsAt(env).Some? then STATUS_ERROR as int else if kernargRegion == 0 then -1 else 0)
      ensures agent == (if InitReached(env, IterateAgents) then LastOfType(AgentsSeen(env.agents), Gpu, old(agent)) else old(agent))
      ensures cpuAgent == (if InitReached(env, IterateAgents) then LastOfType(AgentsSeen(env.agents), Cpu, old(cpuAgent)) else old(cpuAgent))
      ensures queueSize == (if InitReached(env, QueueMaxSize) && env.queueMaxSize.Granted? then env.queueMaxSize.value else old(queueSize))
      ensures InitReached(env, SignalCreate) ==>
                hasQueue && fresh(ring) && ring.Length == queueSize && writeIndex == 0 && doorbell == 0
                && forall i :: 0 <= i < ring.Length ==> ring[i] == InvalidPacket
      ensures !InitReached(env, SignalCreate) ==>
                hasQueue == old(hasQueue) && ring == old(ring) && writeIndex == old(writeIndex) && doorbell == old(doorbell)
      ensures signal == (if InitReached(env, IterateRegions) then env.signalCreate.value else old(signal))
      ensures systemRegion == (if InitReached(env, IterateRegions) then LastInRole(RegionsSeen(env.regions), SystemRole, old(systemRegion)) else old(systemRegion))
      ensures localRegion == (if InitReached(env, IterateRegions) then LastInRole(RegionsSeen(env.regions), LocalRole, old(localRegion)) else old(localRegion))
      ensures gpuLocalRegion == (if InitReached(env, IterateRegions) then LastInRole(RegionsSeen(env.regions), GpuLocalRole, old(gpuLocalRegion)) else old(gpuLocalRegion))
      ensures kernargRegion == (if InitReached(env, IterateRegions) then LastInRole(RegionsSeen(env.regions), KernargRole, old(kernargRegion)) else old(kernargRegion))
      ensures packetIndex == old(packetIndex) && codeObject == old(codeObject) && executable == old(executable)
      ensures groupStaticSize == old(groupStaticSize) && log == old(log) && allocations == old(allocations)
    {
      var st := OpenAgent(env);
      if st != SUCCESS {
        return STATUS_ERROR;
      }
      st := IterateRegionsWith(env.regions, this);
      if st != SUCCESS {
        return STATUS_ERROR;
      }
      if kernargRegion == 0 {
        return -1;
      }
      return 0;
    }

    /** The part of Engine::init before the region iteration: hsa_init, the
        agent iteration, the name and queue-size queries, the queue and the
        completion signal. It succeeds exactly when the region iteration is
        reached, and it leaves the regions alone. */
    method OpenAgent(env: InitAnswers) returns (st: Status)
      requires Valid() && aql.None?
      modifies this
      ensures Valid() && aql.None?
      ensures st == SUCCESS <==> InitReached(env, IterateRegions)
      ensures agent == (if InitReached(env, IterateAgents) then LastOfType(AgentsSeen(env.agents), Gpu, old(agent)) else old(agent))
      ensures cpuAgent == (if InitReached(env, IterateAgents) then LastOfType(AgentsSeen(env.agents), Cpu, old(cpuAgent)) else old(cpuAgent))
      ensures queueSize == (if InitReached(env, QueueMaxSize) && env.queueMaxSize.Granted? then env.queueMaxSize.value else old(queueSize))
      ensures InitReached(env, SignalCreate) ==>
                hasQueue && fresh(ring) && ring.Length == queueSize && writeIndex == 0 && doorbell == 0
                && forall i :: 0 <= i < ring.Length ==> ring[i] == InvalidPacket
      ensures !InitReached(env, SignalCreate) ==>
                hasQueue == old(hasQueue) && ring == old(ring) && writeIndex == old(writeIndex) && doorbell == old(doorbell)
      ensures signal == (if InitReached(env, IterateRegions) then env.signalCreate.value else old(signal))
      ensures systemRegion == old(systemRegion) && localRegion == old(localRegion)
      ensures gpuLocalRegion == old(gpuLocalRegion) && kernargRegion == old(kernargRegion)
      ensures packetIndex == old(packetIndex) && codeObject == old(codeObject) && executable == old(executable)
      ensures groupStaticSize == old(groupStaticSize) && log == old(log) && allocations == old(allocations)
    {
      if env.hsaInit != SUCCESS {
        return STATUS_ERROR;
      }
      st := IterateAgentsWith(env.agents, this);
      if st != SUCCESS {
        return STATUS_ERROR;
      }
      if env.agentName != SUCCESS {  // the name itself is only printed
        return STATUS_ERROR;
      }
      st := OpenQueue(env.queueMaxSize, env.queueCreate, env.signalCreate);
    }

    /** Engine::load_bin_from_file, keeping its three failure branches: the
        file cannot be opened (-1), the staging allocation from the system
        region yields null (-1), deserializing fails (HSA_STATUS_ERROR). */
    method LoadBinFromFile(ans: LoadAnswers) returns (r: int)
      modifies this`codeObject, this`allocations
      ensures r == LoadReturn(ans)
      ensures codeObject == (if r == 0 then ans.codeObject.value else old(codeObject))
      ensures allocations == old(allocations) + LoadAllocations(systemRegion, ans)
    {
      if ans.fileSize.None? {
        return -1;
      }
      var size := ans.fileSize.value;
      var staged := OurHsaAlloc(size, systemRegion, ans.staging);
      allocations := allocations + [staged.request];
      if staged.ptr == 0 {
        return -1;
      }
      if ans.codeObject.Refused? {
        return STATUS_ERROR;
      }
      codeObject := ans.codeObject.value;
      return 0;
    }

    /** The `initialize_packet` block: completion signal, unit workgroup and
        grid sizes, zero segment sizes. */
    method InitializePacket(slot: nat)
      requires slot < ring.Length
      modifies this`log, ring
      ensures ring[slot] == old(ring[slot]).(completionSignal := signal,
                workgroupSizeX := 1, workgroupSizeY := 1, workgroupSizeZ := 1,
                gridSizeX := 1, gridSizeY := 1, gridSizeZ := 1,
                groupSegmentSize := 0, privateSegmentSize := 0)
      ensures forall i :: 0 <= i < ring.Length && i != slot ==> ring[i] == old(ring[i])
      ensures log == old(log) + InitialStores(slot)
    {
      var p := ring[slot];
      p := p.(completionSignal := signal);
      p := p.(workgroupSizeX := 1);
      p := p.(workgroupSizeY := 1);
      p := p.(workgroupSizeZ := 1);
      p := p.(gridSizeX := 1);
      p := p.(gridSizeY := 1);
      p := p.(gridSizeZ := 1);
      p := p.(groupSegmentSize := 0);
      p := p.(privateSegmentSize := 0);
      ring[slot] := p;
      log := log + InitialStores(slot);
    }

    /** The stores after the kernarg allocation: its address and the
        configuration's workgroup and grid sizes, each int converted to the
        field's unsigned width (reduced modulo 2^16 or 2^32). */
    method ApplyConfig(slot: nat, cfg: KernelDispatchConfig, kernarg: u64)
      requires slot < ring.Length
      modifies this`log, ring
      ensures ring[slot] == old(ring[slot]).(kernargAddress := kernarg,
                workgroupSizeX := cfg.workgroupSize.x % TWO_16,
                workgroupSizeY := cfg.workgroupSize.y % TWO_16,
                workgroupSizeZ := cfg.workgroupSize.z % TWO_16,
                gridSizeX := cfg.gridSize.x % TWO_32,
                gridSizeY := cfg.gridSize.y % TWO_32,
                gridSizeZ := cfg.gridSize.z % TWO_32)
      ensures forall i :: 0 <= i < ring.Length && i != slot ==> ring[i] == old(ring[i])
      ensures log == old(log) + ConfigStores(slot)
    {
      var p := ring[slot];
      p := p.(kernargAddress := kernarg);
      p := p.(workgroupSizeX := cfg.workgroupSize.x % TWO_16);
      p := p.(workgroupSizeY := cfg.workgroupSize.y % TWO_16);
      p := p.(workgroupSizeZ := cfg.workgroupSize.z % TWO_16);
      p := p.(gridSizeX := cfg.gridSize.x % TWO_32);
      p := p.(gridSizeY := cfg.gridSize.y % TWO_32);
      p := p.(gridSizeZ := cfg.gridSize.z % TWO_32);
      ring[slot] := p;
      log := log + ConfigStores(slot);
    }

    /** The first part of `setup_dispatch`: the write index is advanced (and
        never given back), aql_ is pointed at the slot the old index masks to,
        the memset clears the packet four slots further on (outside the ring
        when that slot does not exist, where the write is recorded and
        changes nothing), and the reserved slot is initialised. */
    method ReserveSlot() returns (slot: nat)
      requires Valid() && hasQueue
      modifies this`packetIndex, this`writeIndex, this`aql, this`log, ring
      ensures Valid() && slot == Slot(old(writeIndex), ring.Length) && aql == Some(slot)
      ensures packetIndex == old(writeIndex)
      ensures writeIndex == (old(writeIndex) + 1) % TWO_64
      ensures forall i :: 0 <= i < ring.Length && i != slot && i != slot + 4 ==> ring[i] == old(ring[i])
      ensures slot + 4 < ring.Length ==> ring[slot + 4] == ZeroFilled(old(ring[slot + 4]))
      ensures ring[slot] == old(ring[slot]).(completionSignal := signal,
                workgroupSizeX := 1, workgroupSizeY := 1, workgroupSizeZ := 1,
                gridSizeX := 1, gridSizeY := 1, gridSizeZ := 1,
                groupSegmentSize := 0, privateSegmentSize := 0)
      ensures log == old(log) + ReserveWrites(slot)
    {
      // hsa_queue_add_write_index_relaxed(queue_, 1)
      slot := Slot(writeIndex, ring.Length);  // packet_index_ & (queue_->size - 1)
      packetIndex := writeIndex;
      writeIndex := (writeIndex + 1) % TWO_64;
      aql := Some(slot);

      // memset(aql_ + 4, 0, sizeof(*aql_) - 4)
      log := log + [Memset(slot + 4)];
      if slot + 4 < ring.Length {
        ring[slot + 4] := ZeroFilled(ring[slot + 4]);
      }

      InitializePacket(slot);
      assert log == old(log) + [Memset(slot + 4)] + InitialStores(slot);
    }

    /** The middle part of `setup_dispatch`: load the binary, create the
        executable, load and freeze it, look the kernel's symbol up and query
        its kernel object and segment sizes. Returns 0 when every step
        succeeded, otherwise what `setup_dispatch` returns. */
    method ResolveKernel(ans: SetupAnswers) returns (r: int)
      modifies this`codeObject, this`allocations, this`executable, this`groupStaticSize
      ensures r == 0 <==> SetupReached(ans, KernargAllocate)
      ensures r != 0 ==> r == SetupReturn(ans)
      ensures allocations == old(allocations) + LoadAllocations(systemRegion, ans.load)
      ensures codeObject == (if SetupReached(ans, ExecutableCreate) then ans.load.codeObject.value else old(codeObject))
      ensures executable == (if SetupReached(ans, LoadCodeObject) then ans.executableCreate.value else old(executable))
      ensures groupStaticSize == (if SetupReached(ans, KernargSegmentInfo) then ans.groupSegmentSize.value else old(groupStaticSize))
    {
      var loaded := LoadBinFromFile(ans.load);
      if loaded != 0 {
        return -1;
      }
      if ans.executableCreate.Refused? {
        return STATUS_ERROR;
      }
      executable := ans.executableCreate.value;
      if ans.loadCodeObject != SUCCESS {
        return STATUS_ERROR;
      }
      if ans.freeze != SUCCESS {
        return STATUS_ERROR;
      }
      if ans.symbol.Refused? {
        return STATUS_ERROR;
      }
      if ans.kernelObject.Refused? {
        return STATUS_ERROR;
      }
      if ans.groupSegmentSize.Refused? {
        return STATUS_ERROR;
      }
      groupStaticSize := ans.groupSegmentSize.value;
      if ans.kernargSegmentSize.Refused? {  // the kernarg segment size is only printed
        return STATUS_ERROR;
      }
      return 0;
    }

    /** The last part of `setup_dispatch`: store the kernel object, allocate
        `cfg.Size()` bytes from the kernarg region and, when that succeeds,
        store the buffer's address and the configured sizes. */
    method BindKernel(slot: nat, cfg: KernelDispatchConfig, kernelObject: u64, kernarg: Answer<u64>) returns (r: int)
      requires slot < ring.Length
      modifies this`log, this`allocations, ring
      ensures r == (if kernarg.Granted? then 0 else STATUS_ERROR as int)
      ensures allocations == old(allocations) + [Allocation(kernargRegion, cfg.Size())]
      ensures forall i :: 0 <= i < ring.Length && i != slot ==> ring[i] == old(ring[i])
      ensures kernarg.Refused? ==> ring[slot] == old(ring[slot]).(kernelObject := kernelObject)
      ensures kernarg.Granted? ==> ring[slot] == old(ring[slot]).(kernelObject := kernelObject, kernargAddress := kernarg.value,
                workgroupSizeX := cfg.workgroupSize.x % TWO_16,
                workgroupSizeY := cfg.workgroupSize.y % TWO_16,
                workgroupSizeZ := cfg.workgroupSize.z % TWO_16,
                gridSizeX := cfg.gridSize.x % TWO_32,
                gridSizeY := cfg.gridSize.y % TWO_32,
                gridSizeZ := cfg.gridSize.z % TWO_32)
      ensures log == old(log) + BindWrites(slot, kernarg)
    {
      ring[slot] := ring[slot].(kernelObject := kernelObject);
      log := log + [Store(slot, KernelObject)];
      allocations := allocations + [Allocation(kernargRegion, cfg.Size())];
      if kernarg.Refused? {
        return STATUS_ERROR;
      }
      ApplyConfig(slot, cfg, kernarg.value);
      return 0;
    }

    /** Engine::setup_dispatch: reserve and initialise a slot, resolve the
        kernel, and only when everything succeeds bind the kernarg buffer and
        the configured sizes. The runtime answers decide which of -1,
        HSA_STATUS_ERROR and 0 it returns. */
    method SetupDispatch(cfg: KernelDispatchConfig, ans: SetupAnswers) returns (r: int)
      requires Valid() && hasQueue
      modifies this`packetIndex, this`writeIndex, this`aql, this`log, this`allocations
      modifies this`codeObject, this`executable, this`groupStaticSize, ring
      ensures Valid()
      ensures packetIndex == old(writeIndex)
      ensures writeIndex == (old(writeIndex) + 1) % TWO_64
      ensures aql == Some(Slot(old(writeIndex), ring.Length))
      ensures r == SetupReturn(ans)
      ensures var s := aql.value;
              forall i :: 0 <= i < ring.Length && i != s && i != s + 4 ==> ring[i] == old(ring[i])
      ensures var s := aql.value;
              s + 4 < ring.Length ==> ring[s + 4] == ZeroFilled(old(ring[s + 4]))
      ensures var s := aql.value; ring[s] == SetupSlot(old(ring[s]), signal, cfg, ans)
      ensures log == old(log) + SetupWrites(aql.value, ans)
      ensures allocations == old(allocations) + LoadAllocations(systemRegion, ans.load)
                + (if SetupReached(ans, KernargAllocate) then [Allocation(kernargRegion, cfg.Size())] else [])
      ensures codeObject == (if SetupReached(ans, ExecutableCreate) then ans.load.codeObject.value else old(codeObject))
      ensures executable == (if SetupReached(ans, LoadCodeObject) then ans.executableCreate.value else old(executable))
      ensures groupStaticSize == (if SetupReached(ans, KernargSegmentInfo) then ans.groupSegmentSize.value else old(groupStaticSize))
    {
      ghost var log0 := log;
      var slot := ReserveSlot();
      r := ResolveKernel(ans);
      if r != 0 {
        return;
      }
      r := BindKernel(slot, cfg, ans.kernelObject.value, ans.kernarg);
      AppendAssoc(log0, ReserveWrites(slot), BindWrites(slot, ans.kernarg));
    }

    /** Engine::kernarg_address: the kernarg pointer stored in the current slot. */
    method KernargAddress() returns (a: u64)
      requires Valid() && aql.Some?
      ensures a == ring[aql.value].kernargAddress
    {
      a := ring[aql.value].kernargAddress;
    }

    /** Engine::alloc_local: our_hsa_alloc from the host-accessible local
        region; the int size is converted to size_t. */
    method AllocLocal(size: i32, answer: Answer<u64>) returns (p: u64)
      modifies this`allocations
      ensures p == OurHsaAlloc(size % TWO_64, localRegion, answer).ptr
      ensures allocations == old(allocations) + [Allocation(localRegion, size % TWO_64)]
    {
      var c := OurHsaAlloc(size % TWO_64, localRegion, answer);
      allocations := allocations + [c.request];
      p := c.ptr;
    }

    /** Engine::dispatch: picks the dimensionality from the slot's grid
        extents, stores the group segment size, publishes the header word
        with one store, then rings the doorbell with the reserved index. */
    method Dispatch() returns (r: int)
      requires Valid() && aql.Some?
      modifies this`log, this`doorbell, ring
      ensures r == 0
      ensures var s := aql.value;
              ring[s] == Dispatched(old(ring[s]), groupStaticSize)
              && log == old(log) + DispatchWrites(s, DispatchWord(old(ring[s])), ToSigned64(packetIndex))
      ensures forall i :: 0 <= i < ring.Length && i != aql.value ==> ring[i] == old(ring[i])
      ensures doorbell == ToSigned64(packetIndex)
    {
      var s := aql.value;
      var dim := Dimensions(ring[s].gridSizeY, ring[s].gridSizeZ);
      ring[s] := ring[s].(groupSegmentSize := groupStaticSize);
      var word := HeaderWord(dim);
      // __atomic_store_n(aql_, header32, __ATOMIC_RELEASE)
      ring[s] := ring[s].(header := LowHalf(word), setup := HighHalf(word));
      // hsa_signal_store_relaxed(queue_->doorbell_signal, packet_index_)
      doorbell := ToSigned64(packetIndex);
      log := log + DispatchWrites(s, word, doorbell);
      return 0;
    }

    /** Engine::wait: hsa_signal_wait_acquire on the completion signal with
        condition EQ 0, no timeout and an active wait; returns the signal
        value the runtime reports (`observed`). The condition requested holds
        of that value exactly when it is 0, so a signal decremented past 0
        (to -1) does not satisfy it, though it is below 1. */
    method Wait(observed: i64) returns (request: WaitRequest, v: i64)
      ensures request == WaitRequest(signal, ConditionEq, 0, TWO_64 - 1, WaitActive)
      ensures v == observed
      ensures ConditionHolds(request.condition, v, request.compare) <==> v == 0
      ensures !ConditionHolds(request.condition, -1, request.compare)
    {
      request := WaitRequest(signal, ConditionEq, 0, TWO_64 - 1, WaitActive);
      v := observed;
    }
  }

  // ------------------------------------------------------------ callbacks

  /** get_agent_callback: with null `data` reports INVALID_ARGUMENT; a failing
      device query returns that query's status; otherwise a GPU agent
      overwrites `agent_` and a CPU agent overwrites `cpu_agent_`. */
  method GetAgentCallback(a: AgentInfo, data: Engine?) returns (st: Status)
    modifies data
    ensures data == null ==> st == STATUS_ERROR_INVALID_ARGUMENT
    ensures data != null ==> st == a.device.StatusOf() && data.OnlyAgentsChanged()
    ensures data != null ==> data.agent == (if a.device == Granted(Gpu) then a.handle else old(data.agent))
    ensures data != null ==> data.cpuAgent == (if a.device == Granted(Cpu) then a.handle else old(data.cpuAgent))
  {
    if data == null {
      return STATUS_ERROR_INVALID_ARGUMENT;
    }
    if a.device.Refused? {
      return a.device.status;
    }
    var deviceType := a.device.value;
    if deviceType == Gpu {
      data.agent := a.handle;
    }
    if deviceType == Cpu {
      data.cpuAgent := a.handle;
    }
    return SUCCESS;
  }

  /** get_region_callback: a failing segment query yields HSA_STATUS_ERROR; a
      region outside the GLOBAL segment changes nothing; otherwise each role
      the region fills is overwritten with it. */
  method GetRegionCallback(r: RegionInfo, data: Engine) returns (st: Status)
    modifies data
    ensures st == (if r.segment.Refused? then STATUS_ERROR else SUCCESS)
    ensures data.OnlyRegionsChanged()
    ensures r.segment.Granted? && r.segment.value != Global ==>
              data.systemRegion == old(data.systemRegion) && data.localRegion == old(data.localRegion)
              && data.gpuLocalRegion == old(data.gpuLocalRegion) && data.kernargRegion == old(data.kernargRegion)
    ensures data.systemRegion == (if Fills(r, SystemRole) then r.handle else old(data.systemRegion))
    ensures data.localRegion == (if Fills(r, LocalRole) then r.handle else old(data.localRegion))
    ensures data.gpuLocalRegion == (if Fills(r, GpuLocalRole) then r.handle else old(data.gpuLocalRegion))
    ensures data.kernargRegion == (if Fills(r, KernargRole) then r.handle else old(data.kernargRegion))
  {
    if r.segment.Refused? {
      return STATUS_ERROR;
    }
    if r.segment.value != Global {
      return SUCCESS;
    }
    var flags := r.flags;
    var hostAccessible := r.hostAccessible;
    if BitAnd(flags, FLAG_FINE_GRAINED) != 0 {
      data.systemRegion := r.handle;
    }
    if BitAnd(flags, FLAG_COARSE_GRAINED) != 0 {
      if hostAccessible {
        data.localRegion := r.handle;
      } else {
        data.gpuLocalRegion := r.handle;
      }
    }
    if BitAnd(flags, FLAG_KERNARG) != 0 {
      data.kernargRegion := r.handle;
    }
    return SUCCESS;
  }

  /** hsa_iterate_agents(get_agent_callback, data) as the HSA runtime
      specifies it: the callback sees each agent in turn, and the traversal
      stops at, and returns, the first status that is not success. */
  method IterateAgentsWith(agents: seq<AgentInfo>, data: Engine) returns (st: Status)
    modifies data
    ensures st == AgentsStatus(agents)
    ensures data.agent == LastOfType(AgentsSeen(agents), Gpu, old(data.agent))
    ensures data.cpuAgent == LastOfType(AgentsSeen(agents), Cpu, old(data.cpuAgent))
    ensures data.OnlyAgentsChanged()
  {
    ghost var n := FirstAgentFailure(agents);
    var i := 0;
    while i < |agents|
      invariant 0 <= i <= n
      invariant data.agent == LastOfType(agents[..i], Gpu, old(data.agent))
      invariant data.cpuAgent == LastOfType(agents[..i], Cpu, old(data.cpuAgent))
      invariant data.OnlyAgentsChanged()
    {
      st := GetAgentCallback(agents[i], data);
      if st != SUCCESS {
        return;
      }
      assert agents[..i + 1][..i] == agents[..i];
      i := i + 1;
    }
    assert agents[..i] == agents;
    return SUCCESS;
  }

  /** hsa_agent_iterate_regions(agent_, get_region_callback, data) as the HSA
      runtime specifies it: the callback sees each region of the agent in
      turn, and the traversal stops at the first status that is not success. */
  method IterateRegionsWith(regions: seq<RegionInfo>, data: Engine) returns (st: Status)
    modifies data
    ensures st == RegionsStatus(regions)
    ensures data.systemRegion == LastInRole(RegionsSeen(regions), SystemRole, old(data.systemRegion))
    ensures data.localRegion == LastInRole(RegionsSeen(regions), LocalRole, old(data.localRegion))
    ensures data.gpuLocalRegion == LastInRole(RegionsSeen(regions), GpuLocalRole, old(data.gpuLocalRegion))
    ensures data.kernargRegion == LastInRole(RegionsSeen(regions), KernargRole, old(data.kernargRegion))
    ensures data.OnlyRegionsChanged()
  {
    ghost var n := FirstRegionFailure(regions);
    var i := 0;
    while i < |regions|
      invariant 0 <= i <= n
      invariant data.systemRegion == LastInRole(regions[..i], SystemRole, old(data.systemRegion))
      invariant data.localRegion == LastInRole(regions[..i], LocalRole, old(data.localRegion))
      invariant data.gpuLocalRegion == LastInRole(regions[..i], GpuLocalRole, old(data.gpuLocalRegion))
      invariant data.kernargRegion == LastInRole(regions[..i], KernargRole, old(data.kernargRegion))
      invariant data.OnlyRegionsChanged()
    {
      st := GetRegionCallback(regions[i], data);
      if st != SUCCESS {
        return;
      }
      assert regions[..i + 1][..i] == regions[..i];
      i := i + 1;
    }
    assert regions[..i] == regions;
    return SUCCESS;
  }

  // ------------------------------------------------------------- kernel()

  /** No write of `log` publishes a header or rings the doorbell. */
  predicate Unpublished(log: seq<Write>) {
    forall k :: 0 <= k < |log| ==> !log[k].PublishHeader? && !log[k].RingDoorbell?
  }

  /** Setting a slot up, whatever the runtime answers, publishes nothing. */
  lemma SetupWritesUnpublished(s: nat, ans: SetupAnswers)
    ensures Unpublished(SetupWrites(s, ans))
  {
    var a := ReserveWrites(s);
    var b := if SetupReached(ans, KernargAllocate) then BindWrites(s, ans.kernarg) else [];
    assert forall k :: |a| <= k < |a + b| ==> (a + b)[k] == b[k - |a|];
  }

  /** No write of `log` publishes a header. */
  predicate NoHeader(log: seq<Write>) {
    forall k :: 0 <= k < |log| ==> !log[k].PublishHeader?
  }

  lemma NoHeaderAppend(a: seq<Write>, b: seq<Write>)
    requires NoHeader(a) && NoHeader(b)
    ensures NoHeader(a + b)
  {
    assert forall k :: |a| <= k < |a + b| ==> (a + b)[k] == b[k - |a|];
  }

  lemma FilledBeforeAppend(a: seq<Write>, b: seq<Write>, s: nat)
    requires FilledBefore(a, s)
    ensures FilledBefore(a + b, s)
  {
  }

  /** A setup that succeeds assigns every field of its slot that the code
      assigns (all but `reserved0` and `reserved2`, which the misdirected
      memset was meant to clear) and publishes no header. */
  lemma SetupFillsSlot(s: nat, ans: SetupAnswers)
    requires SetupFailsAt(ans).None?
    ensures FilledBefore(SetupWrites(s, ans), s)
    ensures NoHeader(SetupWrites(s, ans))
  {
    var reserve := ReserveWrites(s);
    var bind := BindWrites(s, ans.kernarg);
    assert SetupWrites(s, ans) == reserve + bind;
    assert Store(s, KernelObject) in bind && Store(s, Field.KernargAddress) in bind;
    assert NoHeader(reserve) && NoHeader(bind);
    NoHeaderAppend(reserve, bind);
  }

  /** Setting a slot up never stores its two reserved fields: the memset
      that was meant to clear them lands four slots further on. */
  lemma SetupSkipsReserved(s: nat, ans: SetupAnswers)
    ensures Store(s, Reserved0) !in SetupWrites(s, ans)
    ensures Store(s, Reserved2) !in SetupWrites(s, ans)
  {
  }

  /** A dispatch after writes that assigned every field the code assigns
      and published no header completes the publication protocol. */
  lemma DispatchAfter(filled: seq<Write>, s: nat, w: bv32, v: i64)
    requires FilledBefore(filled, s) && NoHeader(filled)
    ensures PublishedLast(filled + DispatchWrites(s, w, v), s, |filled| + 1)
  {
    var log := filled + DispatchWrites(s, w, v);
    var front := filled + [Store(s, GroupSegmentSize)];
    assert log[..|filled| + 1] == front;
    FilledBeforeAppend(filled, [Store(s, GroupSegmentSize)], s);
    NoHeaderAppend(filled, [Store(s, GroupSegmentSize)]);
    assert forall k :: 0 <= k < |front| ==> log[k] == front[k];
  }

  /** A setup that succeeded, followed by writes that publish nothing and a
      dispatch of the same slot, follows the publication protocol: every
      field the code assigns is stored before the header word, the header is
      published once, and only the doorbell comes after it. */
  lemma SetupThenDispatch(s: nat, ans: SetupAnswers, between: seq<Write>, w: bv32, v: i64)
    requires SetupFailsAt(ans).None?
    requires NoHeader(between)
    ensures var log := SetupWrites(s, ans) + between + DispatchWrites(s, w, v);
            PublishedLast(log, s, |log| - 2)
  {
    SetupFillsSlot(s, ans);
    NoHeaderAppend(SetupWrites(s, ans), between);
    FilledBeforeAppend(SetupWrites(s, ans), between, s);
    DispatchAfter(SetupWrites(s, ans) + between, s, w, v);
  }

  /** The last writes of a dispatch: the header word, then the doorbell. */
  lemma DispatchTail(before: seq<Write>, s: nat, w: bv32, v: i64)
    ensures var log := before + DispatchWrites(s, w, v);
            log[|log| - 2] == PublishHeader(s, w) && log[|log| - 1] == RingDoorbell(v)
            && (|before| > 0 ==> log[|log| - 4] == before[|before| - 1])
  {
  }

  /** The runtime's answers for one run of `kernel()`, and the value the
      completion signal is observed to hold when the wait returns. */
  datatype KernelAnswers = KernelAnswers(init: InitAnswers, localAlloc: Answer<u64>, setup: SetupAnswers, signalValue: i64)

  /** sizeof(float), the size of the output buffer. */
  const FLOAT_SIZE: i32 := 4

  /** sizeof(args_t): a pointer and a float, aligned to 16 bytes. */
  const ARGS_SIZE: i32 := 16

  /** The dispatch `kernel()` configures: kernel.co, symbol meaning.kd, grid
      and workgroup sizes {1, 0, 0}, sizeof(args_t) bytes of arguments. */
  const KERNEL_CONFIG := KernelDispatchConfig("kernel.co", "meaning.kd", Dim3(1, 0, 0), Dim3(1, 0, 0), ARGS_SIZE)

  /** `init` returns 0: every call succeeds and a kernarg region is found. */
  predicate Initialized(init: InitAnswers) {
    InitFailsAt(init).None? && LastInRole(RegionsSeen(init.regions), KernargRole, 0) != 0
  }

  /** The packet reaches the queue: init returns 0 and setup succeeds. */
  predicate Submitted(env: KernelAnswers) {
    Initialized(env.init) && SetupFailsAt(env.setup).None?
  }

  /** The allocations one run of `kernel()` requests, in order: none when
      init fails; otherwise the output float from the local region, the
      staging buffer of the code object from the system region, and, once
      the kernel is resolved, sizeof(args_t) bytes from the kernarg region. */
  function KernelAllocations(env: KernelAnswers): seq<Allocation> {
    var regions := RegionsSeen(env.init.regions);
    if !Initialized(env.init) then []
    else PreparedAllocations(LastInRole(regions, LocalRole, 0), LastInRole(regions, SystemRole, 0),
                             LastInRole(regions, KernargRole, 0), env.setup)
  }

  /** The allocations after init, from the local, system and kernarg regions
      it found: the output float, the staging buffer, and the kernarg buffer
      once the kernel is resolved. */
  function PreparedAllocations(local: u64, system: u64, kernarg: u64, setup: SetupAnswers): seq<Allocation> {
    [Allocation(local, FLOAT_SIZE)] + LoadAllocations(system, setup.load)
    + (if SetupReached(setup, KernargAllocate) then [Allocation(kernarg, ARGS_SIZE)] else [])
  }

  /** What the dispatched packet of `kernel()` holds: the kernel object and
      kernarg buffer the runtime gave, the completion signal, the group
      segment size of the kernel, grid and workgroup sizes {1, 0, 0} and the
      header word of a one-dimensional kernel dispatch. */
  predicate KernelPacket(p: Packet, signal: u64, setup: SetupAnswers) {
    setup.kernelObject == Granted(p.kernelObject)
    && setup.kernarg == Granted(p.kernargAddress)
    && setup.groupSegmentSize == Granted(p.groupSegmentSize)
    && p.completionSignal == signal
    && p.gridSizeX == 1 && p.gridSizeY == 0 && p.gridSizeZ == 0
    && p.workgroupSizeX == 1 && p.workgroupSizeY == 0 && p.workgroupSizeZ == 0
    && p.header == LowHalf(HeaderWord(1)) && p.setup == 1
  }

  /** The writes of a `kernel()` run that dispatched: slot 0 is published
      after every field the code assigns, the doorbell is rung with index 0
      last, and
      the arguments were copied into the kernarg buffer before the dispatch. */
  predicate KernelWrites(log: seq<Write>, kernarg: Answer<u64>) {
    |log| >= 4 && PublishedLast(log, 0, |log| - 2)
    && log[|log| - 2] == PublishHeader(0, HeaderWord(1))
    && log[|log| - 1] == RingDoorbell(0)
    && kernarg.Granted? && log[|log| - 4] == CopyKernargs(kernarg.value, ARGS_SIZE)
  }

  /** The slot `kernel()` dispatches holds the kernel's packet. */
  lemma KernelSlot(p0: Packet, setup: SetupAnswers, signal: u64, groupSize: u32)
    requires SetupFailsAt(setup).None? && setup.groupSegmentSize == Granted(groupSize)
    ensures KernelPacket(Dispatched(SetupSlot(p0, signal, KERNEL_CONFIG, setup), groupSize), signal, setup)
  {
    HeaderWordLayout(1);
  }

  /** The writes of a `kernel()` run that dispatches. */
  lemma KernelLog(setup: SetupAnswers, kernarg: u64)
    requires SetupFailsAt(setup).None? && setup.kernarg == Granted(kernarg)
    ensures KernelWrites(SetupWrites(0, setup) + [CopyKernargs(kernarg, ARGS_SIZE)] + DispatchWrites(0, HeaderWord(1), 0),
                         setup.kernarg)
  {
    SetupThenDispatch(0, setup, [CopyKernargs(kernarg, ARGS_SIZE)], HeaderWord(1), 0);
    DispatchTail(SetupWrites(0, setup) + [CopyKernargs(kernarg, ARGS_SIZE)], 0, HeaderWord(1), 0);
  }

  /** The part of kernel() after a successful init that prepares the
      packet: allocate the output buffer and set the dispatch up. The engine
      holds a new queue whose slots all hold `p0`, so slot 0 is reserved. */
  method Prepare(e: Engine, ghost p0: Packet, localAlloc: Answer<u64>, setup: SetupAnswers) returns (rtn: int)
    requires e.Valid() && e.hasQueue && e.aql.None? && e.writeIndex == 0 && e.log == [] && e.allocations == []
    requires forall i :: 0 <= i < e.ring.Length ==> e.ring[i] == p0
    modifies e`packetIndex, e`writeIndex, e`aql, e`log, e`allocations, e`codeObject
    modifies e`executable, e`groupStaticSize, e.ring
    ensures rtn == SetupReturn(setup)
    ensures e.Valid() && e.aql == Some(0) && e.packetIndex == 0
    ensures rtn == 0 ==> setup.groupSegmentSize == Granted(e.groupStaticSize)
    ensures e.log == SetupWrites(0, setup)
    ensures e.ring[0] == SetupSlot(p0, e.signal, KERNEL_CONFIG, setup)
    ensures e.ring.Length > 4 ==> e.ring[4].header == 0
    ensures e.allocations == PreparedAllocations(e.localRegion, e.systemRegion, e.kernargRegion, setup)
    ensures e.codeObject == (if SetupReached(setup, ExecutableCreate) then setup.load.codeObject.value else old(e.codeObject))
    ensures e.executable == (if SetupReached(setup, LoadCodeObject) then setup.executableCreate.value else old(e.executable))
  {
    var deviceOutput := e.AllocLocal(FLOAT_SIZE, localAlloc);
    rtn := e.SetupDispatch(KERNEL_CONFIG, setup);
    assert Slot(0, e.ring.Length) == 0;
  }

  /** The part of kernel() after a successful setup: copy the arguments into
      the kernarg buffer and dispatch slot 0. */
  method Launch(e: Engine, ghost p0: Packet, setup: SetupAnswers)
    requires SetupFailsAt(setup).None?
    requires e.Valid() && e.aql == Some(0) && e.packetIndex == 0
    requires setup.groupSegmentSize == Granted(e.groupStaticSize)
    requires e.log == SetupWrites(0, setup)
    requires e.ring[0] == SetupSlot(p0, e.signal, KERNEL_CONFIG, setup)
    modifies e`log, e`doorbell, e.ring
    ensures KernelWrites(e.log, setup.kernarg)
    ensures KernelPacket(e.ring[0], e.signal, setup)
    ensures forall i :: 0 <= i < e.ring.Length && i != 0 ==> e.ring[i] == old(e.ring[i])
  {
    var kernarg := e.KernargAddress();
    // memcpy(engine.kernarg_address(), &args, sizeof(args))
    e.log := e.log + [CopyKernargs(kernarg, ARGS_SIZE)];
    assert DispatchWord(e.ring[0]) == HeaderWord(1);
    var rtn := e.Dispatch();
    KernelSlot(p0, setup, e.signal, e.groupStaticSize);
    KernelLog(setup, kernarg);
  }

  /** The part of kernel() after init returns 0: allocate the output
      buffer, set the dispatch up, copy the arguments, dispatch and wait.
      It returns -1 when setup fails, publishing nothing, or when the wait
      observes a nonzero signal value; otherwise 0. */
  method RunKernel(e: Engine, localAlloc: Answer<u64>, setup: SetupAnswers, signalValue: i64) returns (r: int)
    requires e.Valid() && e.hasQueue && e.aql.None? && e.writeIndex == 0 && e.log == [] && e.allocations == []
    requires forall i :: 0 <= i < e.ring.Length ==> e.ring[i] == InvalidPacket
    modifies e`packetIndex, e`writeIndex, e`aql, e`log, e`allocations, e`codeObject
    modifies e`executable, e`groupStaticSize, e`doorbell, e.ring
    ensures r == 0 || r == -1
    ensures r == 0 <==> SetupFailsAt(setup).None? && signalValue == 0
    ensures SetupFailsAt(setup).Some? ==> Unpublished(e.log)
    ensures SetupFailsAt(setup).None? ==> KernelWrites(e.log, setup.kernarg) && KernelPacket(e.ring[0], e.signal, setup)
    ensures SetupFailsAt(setup).None? && e.ring.Length > 4 ==> e.ring[4].header == 0
    ensures e.allocations == PreparedAllocations(e.localRegion, e.systemRegion, e.kernargRegion, setup)
  {
    var rtn := Prepare(e, InvalidPacket, localAlloc, setup);
    if rtn != 0 {
      SetupWritesUnpublished(0, setup);
      return -1;
    }
    Launch(e, InvalidPacket, setup);
    var request, v := e.Wait(signalValue);
    if v != 0 {
      return -1;
    }
    return 0;
  }

  /** kernel(): init, then the dispatch, then the wait. Any failure returns
      -1; a failure before the dispatch publishes nothing. A run that
      dispatches uses slot 0 of the new queue, publishes its header after
      every field the code assigns and rings the doorbell with index 0. The
      memset of the setup leaves slot 4, when the queue has one, no longer
      INVALID. The allocations are requested in the order local output,
      code-object staging, kernel arguments. The result of `alloc_local` is
      never checked, so the result does not depend on `env.localAlloc`. */
  method Kernel(env: KernelAnswers) returns (r: int, e: Engine)
    ensures r == 0 || r == -1
    ensures r == 0 <==> Submitted(env) && env.signalValue == 0
    ensures !Submitted(env) ==> Unpublished(e.log)
    ensures Submitted(env) ==> KernelWrites(e.log, env.setup.kernarg)
    ensures Submitted(env) ==> e.ring.Length == env.init.queueMaxSize.value && e.ring.Length > 0
    ensures Submitted(env) ==> KernelPacket(e.ring[0], env.init.signalCreate.value, env.setup)
    ensures Submitted(env) && e.ring.Length > 4 ==> e.ring[4].header == 0
    ensures e.allocations == KernelAllocations(env)
  {
    e := new Engine();
    var rtn := e.Init(env.init);
    if rtn != 0 {
      assert KernelAllocations(env) == [];
      return -1, e;
    }
    assert KernelAllocations(env) == PreparedAllocations(e.localRegion, e.systemRegion, e.kernargRegion, env.setup);
    r := RunKernel(e, env.localAlloc, env.setup, env.signalValue);
  }
}
