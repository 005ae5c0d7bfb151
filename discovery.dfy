/** How the engine's two enumeration callbacks classify what the runtime
    enumerates, stated as reference definitions over the whole enumeration:
    where the traversal stops, which agent ends up in each agent field, and
    which region ends up in each of the four region roles. */
module Discovery {
  import opened Bits
  import opened Hsa

  /** Index of the first agent whose HSA_AGENT_INFO_DEVICE query fails, or
      the number of agents when none does. */
  function FirstAgentFailure(agents: seq<AgentInfo>): (n: nat)
    ensures n <= |agents|
    ensures forall k :: 0 <= k < n ==> agents[k].device.Granted?
    ensures n < |agents| ==> agents[n].device.Refused?
  {
    if agents == [] || agents[0].device.Refused? then 0 else 1 + FirstAgentFailure(agents[1..])
  }

  /** The agents the callback classifies before the traversal stops. */
  function AgentsSeen(agents: seq<AgentInfo>): seq<AgentInfo> {
    agents[..FirstAgentFailure(agents)]
  }

  /** The status the agent traversal returns: the failing query's own status,
      or success. */
  function AgentsStatus(agents: seq<AgentInfo>): Status {
    var n := FirstAgentFailure(agents);
    if n < |agents| then agents[n].device.status else SUCCESS
  }

  /** The handle of the last agent of kind `t` in `agents`, or `default`. */
  function LastOfType(agents: seq<AgentInfo>, t: DeviceType, default: u64): u64
    decreases |agents|
  {
    if agents == [] then default
    else if agents[|agents| - 1].device == Granted(t) then agents[|agents| - 1].handle
    else LastOfType(agents[..|agents| - 1], t, default)
  }

  /** LastOfType picks the agent of kind `t` enumerated last: either there is
      one and no later agent has that kind, or there is none and the field
      keeps its value. */
  lemma {:induction false} LastOfTypeIsLast(agents: seq<AgentInfo>, t: DeviceType, default: u64)
    ensures (exists i :: 0 <= i < |agents| && agents[i].device == Granted(t))
            ==> exists i :: 0 <= i < |agents| && agents[i].device == Granted(t)
                            && LastOfType(agents, t, default) == agents[i].handle
                            && forall j :: i < j < |agents| ==> agents[j].device != Granted(t)
    ensures (forall i :: 0 <= i < |agents| ==> agents[i].device != Granted(t))
            ==> LastOfType(agents, t, default) == default
    decreases |agents|
  {
    if agents != [] {
      var m := |agents| - 1;
      var front := agents[..m];
      LastOfTypeIsLast(front, t, default);
      assert forall i :: 0 <= i < m ==> front[i] == agents[i];
      if agents[m].device != Granted(t) {
        if exists i :: 0 <= i < |agents| && agents[i].device == Granted(t) {
          var i :| 0 <= i < |agents| && agents[i].device == Granted(t);
          assert front[i].device == Granted(t);
        }
      }
    }
  }

  /** Enumerating one more agent of kind `t` makes it the selected one: the
      selection is last-wins. */
  lemma LaterAgentWins(agents: seq<AgentInfo>, a: AgentInfo, t: DeviceType, default: u64)
    requires a.device == Granted(t)
    ensures LastOfType(agents + [a], t, default) == a.handle
  {
  }

  /** An agent of another kind leaves the selection as it was. */
  lemma OtherAgentKeeps(agents: seq<AgentInfo>, a: AgentInfo, t: DeviceType, default: u64)
    requires a.device != Granted(t)
    ensures LastOfType(agents + [a], t, default) == LastOfType(agents, t, default)
  {
    assert (agents + [a])[..|agents|] == agents;
  }

  /** The four memory-region roles. */
  datatype Role = SystemRole | LocalRole | GpuLocalRole | KernargRole

  /** The flag word has `flag` set. */
  predicate HasFlag(flags: u32, flag: nat) {
    BitAnd(flags, flag) != 0
  }

  /** A region fills a role when its segment is GLOBAL and: fine-grained for
      the system role; coarse-grained and host-accessible for the local role;
      coarse-grained and not host-accessible for the device-local role;
      kernarg-flagged for the kernarg role. */
  predicate Fills(r: RegionInfo, role: Role) {
    r.segment == Granted(Global) &&
    match role
    case SystemRole => HasFlag(r.flags, FLAG_FINE_GRAINED)
    case LocalRole => HasFlag(r.flags, FLAG_COARSE_GRAINED) && r.hostAccessible
    case GpuLocalRole => HasFlag(r.flags, FLAG_COARSE_GRAINED) && !r.hostAccessible
    case KernargRole => HasFlag(r.flags, FLAG_KERNARG)
  }

  /** The three flags are bits 0, 1 and 2 of the flag word. */
  lemma FlagsAreBits(flags: u32)
    ensures HasFlag(flags, FLAG_KERNARG) <==> flags % 2 == 1
    ensures HasFlag(flags, FLAG_FINE_GRAINED) <==> (flags / 2) % 2 == 1
    ensures HasFlag(flags, FLAG_COARSE_GRAINED) <==> (flags / 4) % 2 == 1
  {
    BitAndSingleBit(flags, 0);
    BitAndSingleBit(flags, 1);
    BitAndSingleBit(flags, 2);
    assert Pow2(1) == 2;
    assert Pow2(2) == 4;
  }

  /** A region outside the GLOBAL segment fills no role. */
  lemma NonGlobalFillsNothing(r: RegionInfo, role: Role)
    requires r.segment != Granted(Global)
    ensures !Fills(r, role)
  {
  }

  /** A coarse-grained global region is either host-local or device-local,
      never both. */
  lemma CoarseRegionOneLocalRole(r: RegionInfo)
    requires r.segment == Granted(Global) && HasFlag(r.flags, FLAG_COARSE_GRAINED)
    ensures Fills(r, LocalRole) != Fills(r, GpuLocalRole)
  {
  }

  /** The roles are independent: one region with all three flags set fills
      the system, host-local and kernarg roles at once. */
  lemma RegionMayFillSeveralRoles()
    ensures exists r: RegionInfo :: Fills(r, SystemRole) && Fills(r, LocalRole) && Fills(r, KernargRole)
  {
    var r := RegionInfo(1, Granted(Global), 7, true);
    FlagsAreBits(7);
    assert Fills(r, SystemRole) && Fills(r, LocalRole) && Fills(r, KernargRole);
  }

  /** Index of the first region whose HSA_REGION_INFO_SEGMENT query fails,
      or the number of regions when none does. */
  function FirstRegionFailure(regions: seq<RegionInfo>): (n: nat)
    ensures n <= |regions|
    ensures forall k :: 0 <= k < n ==> regions[k].segment.Granted?
    ensures n < |regions| ==> regions[n].segment.Refused?
  {
    if regions == [] || regions[0].segment.Refused? then 0 else 1 + FirstRegionFailure(regions[1..])
  }

  /** The regions the callback classifies before the traversal stops. */
  function RegionsSeen(regions: seq<RegionInfo>): seq<RegionInfo> {
    regions[..FirstRegionFailure(regions)]
  }

  /** The status the region traversal returns: the callback turns a failing
      segment query into HSA_STATUS_ERROR. */
  function RegionsStatus(regions: seq<RegionInfo>): Status {
    if FirstRegionFailure(regions) < |regions| then STATUS_ERROR else SUCCESS
  }

  /** The handle of the last region filling `role`, or `default`. */
  function LastInRole(regions: seq<RegionInfo>, role: Role, default: u64): u64
    decreases |regions|
  {
    if regions == [] then default
    else if Fills(regions[|regions| - 1], role) then regions[|regions| - 1].handle
    else LastInRole(regions[..|regions| - 1], role, default)
  }

  /** LastInRole picks the region filling `role` enumerated last, or keeps
      `default` when no region fills it. */
  lemma {:induction false} LastInRoleIsLast(regions: seq<RegionInfo>, role: Role, default: u64)
    ensures (exists i :: 0 <= i < |regions| && Fills(regions[i], role))
            ==> exists i :: 0 <= i < |regions| && Fills(regions[i], role)
                            && LastInRole(regions, role, default) == regions[i].handle
                            && forall j :: i < j < |regions| ==> !Fills(regions[j], role)
    ensures (forall i :: 0 <= i < |regions| ==> !Fills(regions[i], role))
            ==> LastInRole(regions, role, default) == default
    decreases |regions|
  {
    if regions != [] {
      var m := |regions| - 1;
      var front := regions[..m];
      LastInRoleIsLast(front, role, default);
      assert forall i :: 0 <= i < m ==> front[i] == regions[i];
      if !Fills(regions[m], role) {
        if exists i :: 0 <= i < |regions| && Fills(regions[i], role) {
          var i :| 0 <= i < |regions| && Fills(regions[i], role);
          assert Fills(front[i], role);
        }
      }
    }
  }

  /** A later region filling a role overwrites an earlier one. */
  lemma LaterRegionWins(regions: seq<RegionInfo>, r: RegionInfo, role: Role, default: u64)
    requires Fills(r, role)
    ensures LastInRole(regions + [r], role, default) == r.handle
  {
  }

  /** A region not filling a role leaves that role as it was. */
  lemma OtherRegionKeeps(regions: seq<RegionInfo>, r: RegionInfo, role: Role, default: u64)
    requires !Fills(r, role)
    ensures LastInRole(regions + [r], role, default) == LastInRole(regions, role, default)
  {
    assert (regions + [r])[..|regions|] == regions;
  }
}
