/**
 The health of the NPU chips as it is published: chips are probed in rounds, the chips of an Atlas 300I
 Duo card share the worst health of the card, and a type of device is published anew when it is flagged.
 */
module NpuHealth {
  import opened Basics

  const ASCEND_310P := "Ascend310P"

  datatype Health = Healthy | Unhealthy

  /** What the driver answers for every chip: a state code, or nothing when the query fails. */
  type Probe = int -> Option<nat>

  const NORMAL_STATE := 0
  const GENERAL_ALARM := 1

  function DevState(probe: Probe, logicID: int): Health {
    match probe(logicID)
    case None => Unhealthy
    case Some(code) => if code == NORMAL_STATE || code == GENERAL_ALARM then Healthy else Unhealthy
  }

  class Device {
    const devType: string
    const logicID: int
    const cardID: int
    var health: Health

    constructor (devType: string, logicID: int, cardID: int)
      ensures this.devType == devType && this.logicID == logicID && this.cardID == cardID && health == Healthy
    {
      this.devType, this.logicID, this.cardID, health := devType, logicID, cardID, Healthy;
    }
  }

  type Groups = map<string, seq<Device>>

  ghost predicate InGroup(groups: Groups, devType: string, older d: Device) {
    devType in groups && d in groups[devType]
  }

  /** Every device is in the group of its type, once. */
  ghost predicate ByType(groups: Groups) {
    && (forall t, d | InGroup(groups, t, d) :: d.devType == t)
    && (forall t | t in groups :: Distinct(groups[t]))
  }

  // ---------- the health that a round leaves ----------

  /** The card of d has a chip that the probe finds unhealthy. */
  ghost predicate CardIsSick(groups: Groups, probe: Probe, d: Device) {
    exists e :: InGroup(groups, ASCEND_310P, e) && e.cardID == d.cardID && DevState(probe, e.logicID) == Unhealthy
  }

  /** The final health of a device depends on the probe alone. */
  ghost function Final(duo: bool, groups: Groups, probe: Probe, d: Device): Health {
    if duo && InGroup(groups, ASCEND_310P, d) && CardIsSick(groups, probe, d) then Unhealthy
    else DevState(probe, d.logicID)
  }

  /** The types that a round flags: those with a device whose probed state is not its health. */
  ghost predicate Flagged(groups: Groups, h: Device -> Health, probe: Probe, devType: string) {
    exists d :: InGroup(groups, devType, d) && h(d) != DevState(probe, d.logicID)
  }

  ghost predicate Uniform(groups: Groups, h: Device -> Health) {
    forall d, e | InGroup(groups, ASCEND_310P, d) && InGroup(groups, ASCEND_310P, e) && d.cardID == e.cardID ::
      h(d) == h(e)
  }

  /** The driver answers for the chip, and answers that it is normal or has a general alarm. */
  predicate IsFine(probe: Probe, logicID: int) {
    probe(logicID) == Some(0) || probe(logicID) == Some(1)
  }

  /**
   After a round a chip is healthy exactly when the driver finds it fine and, on a Duo card, finds every chip
   of the card fine.
   */
  lemma HealthyExactly(duo: bool, groups: Groups, probe: Probe, d: Device)
    ensures Final(duo, groups, probe, d) == Healthy <==>
            && IsFine(probe, d.logicID)
            && (duo && ASCEND_310P in groups && d in groups[ASCEND_310P] ==>
                  forall e | e in groups[ASCEND_310P] && e.cardID == d.cardID :: IsFine(probe, e.logicID))
  {
    if ASCEND_310P in groups {
      forall e | e in groups[ASCEND_310P]
        ensures InGroup(groups, ASCEND_310P, e)
      {
      }
    }
  }

  lemma FinalIsUniform(groups: Groups, probe: Probe)
    ensures Uniform(groups, (d: Device) => Final(true, groups, probe, d))
  {
  }

  /** A device whose health changed has its type flagged, provided the cards were uniform. */
  lemma ChangedIsFlagged(duo: bool, groups: Groups, h: Device -> Health, probe: Probe, devType: string, d: Device)
    requires duo ==> Uniform(groups, h)
    requires ByType(groups) && InGroup(groups, devType, d) && h(d) != Final(duo, groups, probe, d)
    ensures Flagged(groups, h, probe, devType)
  {
  }

  /** From cards that are not uniform a change can go unflagged. */
  lemma FlagNeedsUniformity(groups: Groups, h: Device -> Health, probe: Probe, d: Device, e: Device)
    requires groups == map[ASCEND_310P := [d, e]] && d.cardID == e.cardID
    requires h(d) == DevState(probe, d.logicID) == Healthy && h(e) == DevState(probe, e.logicID) == Unhealthy
    ensures h(d) != Final(true, groups, probe, d) && !Flagged(groups, h, probe, ASCEND_310P)
  {
  }

  /** While the probes stay as they are, a type is flagged again exactly when it has a healthy chip on a sick card. */
  lemma FlaggedAgain(duo: bool, groups: Groups, probe: Probe, devType: string)
    requires ByType(groups)
    ensures Flagged(groups, (d: Device) => Final(duo, groups, probe, d), probe, devType)
            <==> duo && devType == ASCEND_310P &&
                 exists d :: InGroup(groups, devType, d) && CardIsSick(groups, probe, d)
                             && DevState(probe, d.logicID) == Healthy
  {
  }

  // ---------- rounds ----------

  /** The health of the devices, and the health last published. */
  datatype Board = Board(health: Device -> Health, published: Device -> Health)

  ghost function Round(duo: bool, groups: Groups, b: Board, probe: Probe): Board {
    Board((d: Device) => if InGroup(groups, d.devType, d) then Final(duo, groups, probe, d) else b.health(d),
          (d: Device) => if InGroup(groups, d.devType, d) && Flagged(groups, b.health, probe, d.devType)
               then Final(duo, groups, probe, d) else b.published(d))
  }

  ghost function Rounds(duo: bool, groups: Groups, b: Board, probes: seq<Probe>): Board
    decreases |probes|
  {
    if probes == [] then b else Rounds(duo, groups, Round(duo, groups, b, probes[0]), probes[1..])
  }

  ghost predicate UpToDate(groups: Groups, b: Board) {
    forall t, d | InGroup(groups, t, d) :: b.published(d) == b.health(d)
  }

  lemma RoundKeepsUpToDate(duo: bool, groups: Groups, b: Board, probe: Probe)
    requires ByType(groups) && UpToDate(groups, b) && (duo ==> Uniform(groups, b.health))
    ensures var b' := Round(duo, groups, b, probe); UpToDate(groups, b') && (duo ==> Uniform(groups, b'.health))
  {
  }

  lemma {:induction false} RoundsKeepUpToDate(duo: bool, groups: Groups, b: Board, probes: seq<Probe>)
    requires ByType(groups) && UpToDate(groups, b) && (duo ==> Uniform(groups, b.health))
    ensures UpToDate(groups, Rounds(duo, groups, b, probes))
    ensures duo ==> Uniform(groups, Rounds(duo, groups, b, probes).health)
    decreases |probes|
  {
    if probes != [] {
      RoundKeepsUpToDate(duo, groups, b, probes[0]);
      RoundsKeepUpToDate(duo, groups, Round(duo, groups, b, probes[0]), probes[1..]);
    }
  }

  /** All devices are healthy, and published so. */
  ghost function AllHealthy(): Board {
    Board((d: Device) => Healthy, (d: Device) => Healthy)
  }

  /**
   From the all-healthy start, after any rounds, what is published is the health of every device, and on
   duo cards the chips of a card agree.
   */
  lemma PublishedIsCurrent(duo: bool, groups: Groups, probes: seq<Probe>)
    requires ByType(groups)
    ensures UpToDate(groups, Rounds(duo, groups, AllHealthy(), probes))
    ensures duo ==> Uniform(groups, Rounds(duo, groups, AllHealthy(), probes).health)
  {
    RoundsKeepUpToDate(duo, groups, AllHealthy(), probes);
  }

  // ---------- grouping ----------

  function OfType(devs: seq<Device>, devType: string): (r: seq<Device>)
    ensures forall d | d in r :: d in devs && d.devType == devType
    ensures forall d | d in devs && d.devType == devType :: d in r
  {
    if devs == [] then []
    else OfType(devs[..|devs| - 1], devType) +
         if devs[|devs| - 1].devType == devType then [devs[|devs| - 1]] else []
  }

  lemma {:induction false} OfTypeIsDistinct(devs: seq<Device>, devType: string)
    requires Distinct(devs)
    ensures Distinct(OfType(devs, devType))
  {
    if devs != [] {
      OfTypeIsDistinct(devs[..|devs| - 1], devType);
    }
  }

  method ClassifyDevByType(allDevs: seq<Device>, suffix: string) returns (devs: seq<Device>)
    ensures devs == OfType(allDevs, suffix)
  {
    devs := [];
    for i := 0 to |allDevs|
      invariant devs == OfType(allDevs[..i], suffix)
    {
      assert allDevs[..i + 1][..i] == allDevs[..i];
      if allDevs[i].devType == suffix {
        devs := devs + [allDevs[i]];
      }
    }
    assert allDevs[..|allDevs|] == allDevs;
  }

  /** One group per type, with the devices of that type in their order; they are the same objects. */
  method ClassifyDevices(allDevs: seq<Device>, devTypes: seq<string>) returns (groups: Groups)
    requires Distinct(allDevs)
    ensures forall t :: t in groups <==> t in devTypes
    ensures forall t | t in groups :: groups[t] == OfType(allDevs, t)
    ensures ByType(groups)
  {
    groups := map[];
    for i := 0 to |devTypes|
      invariant forall t :: t in groups <==> t in devTypes[..i]
      invariant forall t | t in groups :: groups[t] == OfType(allDevs, t)
    {
      var devs := ClassifyDevByType(allDevs, devTypes[i]);
      groups := groups[devTypes[i] := devs];
    }
    forall t | t in groups
      ensures Distinct(groups[t])
    {
      OfTypeIsDistinct(allDevs, t);
    }
  }

  // ---------- one round ----------

  ghost function All(groups: Groups): set<Device> {
    set t, d | t in groups && d in groups[t] :: d
  }

  method GetUnHealthyCard(devices: seq<Device>) returns (cards: set<int>)
    ensures forall c :: c in cards <==> exists d :: d in devices && d.cardID == c && d.health == Unhealthy
  {
    cards := {};
    for i := 0 to |devices|
      invariant forall c :: c in cards <==>
                  exists j :: 0 <= j < i && devices[j].cardID == c && devices[j].health == Unhealthy
    {
      if devices[i].health != Healthy {
        cards := cards + {devices[i].cardID};
      }
    }
  }

  /** Every chip is probed once. */
  method ProbeAll(groups: Groups, probe: Probe) returns (status: map<int, Health>)
    ensures forall t, d | InGroup(groups, t, d) :: d.logicID in status
    ensures forall id | id in status :: status[id] == DevState(probe, id)
  {
    status := map[];
    var types := groups.Keys;
    while types != {}
      invariant types <= groups.Keys
      invariant forall t, d | InGroup(groups, t, d) && t !in types :: d.logicID in status
      invariant forall id | id in status :: status[id] == DevState(probe, id)
    {
      var devType :| devType in types;
      var devices := groups[devType];
      for i := 0 to |devices|
        invariant forall t, d | InGroup(groups, t, d) && t !in types :: d.logicID in status
        invariant forall j | 0 <= j < i :: devices[j].logicID in status
        invariant forall id | id in status :: status[id] == DevState(probe, id)
      {
        status := status[devices[i].logicID := DevState(probe, devices[i].logicID)];
      }
      types := types - {devType};
    }
  }

  /** Sets the devices of one type to their probed state; says whether one of them differed. */
  method UpdateGroup(devices: seq<Device>, status: map<int, Health>) returns (changed: bool)
    requires Distinct(devices) && forall d | d in devices :: d.logicID in status
    modifies devices
    ensures forall d | d in devices :: d.health == status[d.logicID]
    ensures changed <==> exists d :: d in devices && old(d.health) != status[d.logicID]
  {
    changed := false;
    for i := 0 to |devices|
      invariant forall j | 0 <= j < i :: devices[j].health == status[devices[j].logicID]
      invariant forall j | i <= j < |devices| :: devices[j].health == old(devices[j].health)
      invariant changed <==> exists j :: 0 <= j < i && old(devices[j].health) != status[devices[j].logicID]
    {
      if status[devices[i].logicID] != devices[i].health {
        changed := true;
        devices[i].health := status[devices[i].logicID];
      }
    }
  }

  /** Sets every device to its probed state and collects the types that differed; h is the health before. */
  method UpdateAll(groups: Groups, status: map<int, Health>, ghost probe: Probe, ghost h: Device -> Health)
    returns (changed: map<string, bool>)
    requires ByType(groups) && forall t, d | InGroup(groups, t, d) :: d.logicID in status && d.health == h(d)
    requires forall id | id in status :: status[id] == DevState(probe, id)
    modifies All(groups)
    ensures forall t, d | InGroup(groups, t, d) :: d.health == DevState(probe, d.logicID)
    ensures forall t :: t in changed <==> Flagged(groups, h, probe, t)
    ensures forall t | t in changed :: changed[t]
  {
    changed := map[];
    var types := groups.Keys;
    while types != {}
      invariant types <= groups.Keys
      invariant forall t, d | InGroup(groups, t, d) ::
                  d.health == if t in types then h(d) else DevState(probe, d.logicID)
      invariant forall t :: t in changed <==> t in groups.Keys - types && Flagged(groups, h, probe, t)
      invariant forall t | t in changed :: changed[t]
    {
      var devType :| devType in types;
      assert forall d | d in groups[devType] :: InGroup(groups, devType, d) && d in All(groups);
      var differed := UpdateGroup(groups[devType], status);
      assert differed <==> Flagged(groups, h, probe, devType);
      if differed {
        changed := changed[devType := true];
      }
      types := types - {devType};
    }
  }

  method MarkCards(devices: seq<Device>, cards: set<int>)
    requires Distinct(devices)
    modifies devices
    ensures forall d | d in devices :: d.health == if d.cardID in cards then Unhealthy else old(d.health)
  {
    for i := 0 to |devices|
      invariant forall j | 0 <= j < |devices| ::
                  devices[j].health == if j < i && devices[j].cardID in cards then Unhealthy else old(devices[j].health)
    {
      if devices[i].cardID in cards {
        devices[i].health := Unhealthy;
      }
    }
  }

  /** The chips of a sick card become unhealthy, whatever their own state. */
  method SyncDuoCardState(duo: bool, groups: Groups, ghost probe: Probe)
    requires ByType(groups)
    requires forall t, d | InGroup(groups, t, d) :: d.health == DevState(probe, d.logicID)
    modifies All(groups)
    ensures forall t, d | InGroup(groups, t, d) :: d.health == Final(duo, groups, probe, d)
  {
    if !duo || ASCEND_310P !in groups {
      return;
    }
    var devices := groups[ASCEND_310P];
    assert forall d | d in devices :: InGroup(groups, ASCEND_310P, d) && d in All(groups);
    var unHealthyCards := GetUnHealthyCard(devices);
    assert forall d | d in devices :: d.cardID in unHealthyCards <==> CardIsSick(groups, probe, d);
    MarkCards(devices, unHealthyCards);
  }

  /** One round of probes: every device has its final health, and the types returned are those to publish anew. */
  method IsDeviceStatusChange(duo: bool, groups: Groups, probe: Probe, ghost h: Device -> Health)
    returns (isStateChange: map<string, bool>)
    requires ByType(groups) && forall t, d | InGroup(groups, t, d) :: d.health == h(d)
    modifies All(groups)
    ensures forall t, d | InGroup(groups, t, d) :: d.health == Final(duo, groups, probe, d)
    ensures forall t :: t in isStateChange <==> Flagged(groups, h, probe, t)
    ensures forall t | t in isStateChange :: isStateChange[t]
  {
    var healthStatus := ProbeAll(groups, probe);
    isStateChange := UpdateAll(groups, healthStatus, probe, h);
    SyncDuoCardState(duo, groups, probe);
  }
}
