// runtime.Service and the administrators' TerminateInstance, in the shape of the source, against a
// platform that other threads, other processes, administrators and nature change between any two
// of their calls. Every contract lists the exact events the call issued itself; that each was
// enabled when issued is part of Platform.Valid, so the theorems of Safety and Bounds apply.

module InstanceService {
  import opened Options
  import opened Protocol
  import opened Safety
  import opened Interference
  import opened World

  datatype Failure =
    | Waiting | ChallengeNotFound | ChallengeNotDynamic | RuntimeConfigMissing
    | InstanceNotFound | RenewLimitReached | CapacityReached | CooldownActive | PortExhausted
    | Backend

  datatype StartResult = Created(id: nat, row: Row) | Existing(id: nat, row: Row) | Refused(why: Failure)

  // What a refusal for the configuration of a challenge tells.
  predicate ConfigExplains(k: Setup, ref: string, why: Failure, needsRuntime: bool) {
    match why
    case ChallengeNotFound => Resolve(k, ref) == None
    case ChallengeNotDynamic => Resolve(k, ref).Some? && !Resolve(k, ref).value.dynamic
    case RuntimeConfigMissing =>
      && needsRuntime && Resolve(k, ref).Some?
      && var cfg := Resolve(k, ref).value;
         cfg.dynamic && (cfg.configId == 0 || cfg.image == "" || cfg.containerPort == 0)
    case _ => true
  }

  // The reference names a published dynamic challenge, with a complete runtime where one is needed.
  predicate Serves(k: Setup, ref: string, needsRuntime: bool) {
    && Resolve(k, ref).Some?
    && var cfg := Resolve(k, ref).value;
       cfg.dynamic && (needsRuntime ==> cfg.configId != 0 && cfg.image != "" && cfg.containerPort != 0)
  }

  // What an answer to a start tells about the state it was given in. With one process a later check
  // refuses only what passed the earlier ones: no active row, then capacity, then cooldown.
  ghost predicate Explains(k: Setup, s: State, user: int, ref: string, r: StartResult) {
    match r
    case Created(id, row) =>
      && Serves(k, ref, true) && row.Owned(Resolve(k, ref).value.id, user)
      && id in s.rows && s.rows[id] == row
    case Existing(id, row) =>
      && Serves(k, ref, true) && row.Owned(Resolve(k, ref).value.id, user)
      && s.ActiveRow(id) && s.rows[id] == row
    case Refused(why) =>
      match why
      case CapacityReached =>
        && Serves(k, ref, true)
        && var cfg := Resolve(k, ref).value;
           0 < cfg.maxActive <= |s.ActiveOf(cfg.id)| && (k.solo ==> KeyFree(s, cfg.id, user))
      case CooldownActive =>
        && Serves(k, ref, true) && Resolve(k, ref).value.cooldown > 0
        && (exists id | id in s.rows ::
              && s.rows[id].Owned(Resolve(k, ref).value.id, user)
              && s.now < s.rows[id].startedAt + Resolve(k, ref).value.cooldown)
        && (k.solo ==> KeyFree(s, Resolve(k, ref).value.id, user) && RoomFor(s, Resolve(k, ref).value))
      case PortExhausted => k.Pooled() && Serves(k, ref, true) && (k.solo ==> MayStart(k, s, Resolve(k, ref).value, user))
      case Backend => true
      case _ => why in {ChallengeNotFound, ChallengeNotDynamic, RuntimeConfigMissing} && ConfigExplains(k, ref, why, true)
  }

  datatype Placement = Placed(cid: Cid, port: int) | Unplaced(why: Failure)

  // Failed attempts: the engine refuses each, and some leave their container behind.
  predicate Attempts(events: seq<Event>) {
    forall i | 0 <= i < |events| ::
      || events[i].Busy? || events[i].Abort?
      || (events[i].Launch? && i + 1 < |events| && !events[i + 1].Launch?)
  }

  lemma AttemptsJoin(a: seq<Event>, b: seq<Event>)
    requires Attempts(a) && Attempts(b)
    ensures Attempts(a + b)
  {
  }

  function Refusals(events: seq<Event>): set<int> {
    set i | 0 <= i < |events| && events[i].Busy? :: events[i].port
  }

  // Ports of the pool below bound that may not be used.
  predicate TakenBelow(k: Setup, bound: int, taken: set<int>) {
    forall q | k.portMin <= q < bound :: q in taken
  }

  // What a start issued: n events of failed attempts, then, if an attempt
  // succeeded, its launch, followed by the row or, when that is refused, the container's removal
  // (which may fail too).
  predicate StartTrace(me: Actor, acts: seq<Event>, n: nat, outcome: StartResult) {
    && n <= |acts| <= n + 2
    && Attempts(acts[..n])
    && (|acts| > n ==> acts[n].Launch?)
    && match outcome
       case Created(id, row) =>
         acts[n..] == [Launch(row.container, Container(row.challenge, row.user, row.port, me)), Insert(id, row)]
       case _ =>
         |acts| == n + 2 ==> acts[n + 1] == Reap(acts[n].cid)
  }

  predicate RoomFor(s: State, cfg: Config) {
    cfg.maxActive > 0 ==> |s.ActiveOf(cfg.id)| < cfg.maxActive
  }

  // There was no active row of the user for the challenge in a state after the first n entries.
  ghost predicate WasFree(origin: State, log: seq<Entry>, n: nat, challenge: string, user: int) {
    exists seen :: Visited(origin, log, n, seen) && KeyFree(seen, challenge, user)
  }

  // There was room for one more instance of the challenge in a state after the first n entries.
  ghost predicate HadRoom(origin: State, log: seq<Entry>, n: nat, cfg: Config) {
    exists seen :: Visited(origin, log, n, seen) && RoomFor(seen, cfg)
  }

  // The user's starts known in state s were a cooldown ago at time now.
  predicate RestedAt(s: State, cfg: Config, user: int, now: int) {
    forall id | id in s.rows && s.rows[id].Owned(cfg.id, user) :: s.rows[id].startedAt + cfg.cooldown <= now
  }

  // They were, for a state after the first n entries and the time of a later one.
  ghost predicate WasRested(origin: State, log: seq<Entry>, n: nat, cfg: Config, user: int) {
    exists seen, t :: VisitedInTurn(origin, log, n, seen, t) && RestedAt(seen, cfg, user, t.now)
  }

  // What the checks found in states after the first n entries: no active row of the user, room, and
  // no recent start.
  ghost predicate Cleared(origin: State, log: seq<Entry>, n: nat, cfg: Config, user: int) {
    && WasFree(origin, log, n, cfg.id, user)
    && HadRoom(origin, log, n, cfg)
    && (cfg.cooldown > 0 ==> WasRested(origin, log, n, cfg, user))
  }

  lemma HadRoomStays(origin: State, log: seq<Entry>, longer: seq<Entry>, n: nat, m: nat, cfg: Config)
    requires HadRoom(origin, log, n, cfg) && log <= longer && m <= n
    ensures HadRoom(origin, longer, m, cfg)
  {
    var seen :| Visited(origin, log, n, seen) && RoomFor(seen, cfg);
    VisitedStays(origin, log, longer, n, m, seen);
  }

  lemma WasRestedStays(
    origin: State, log: seq<Entry>, longer: seq<Entry>, n: nat, m: nat, cfg: Config, user: int)
    requires WasRested(origin, log, n, cfg, user) && log <= longer && m <= n
    ensures WasRested(origin, longer, m, cfg, user)
  {
    var seen, t :| VisitedInTurn(origin, log, n, seen, t) && RestedAt(seen, cfg, user, t.now);
    InTurnStays(origin, log, longer, n, m, seen, t);
  }

  lemma WasFreeStays(
    origin: State, log: seq<Entry>, longer: seq<Entry>, n: nat, m: nat, challenge: string, user: int)
    requires WasFree(origin, log, n, challenge, user) && log <= longer && m <= n
    ensures WasFree(origin, longer, m, challenge, user)
  {
    var seen :| Visited(origin, log, n, seen) && KeyFree(seen, challenge, user);
    VisitedStays(origin, log, longer, n, m, seen);
  }

  lemma ClearedStays(origin: State, log: seq<Entry>, longer: seq<Entry>, n: nat, m: nat, cfg: Config, user: int)
    requires Cleared(origin, log, n, cfg, user) && log <= longer && m <= n
    ensures Cleared(origin, longer, m, cfg, user)
  {
    WasFreeStays(origin, log, longer, n, m, cfg.id, user);
    HadRoomStays(origin, log, longer, n, m, cfg);
    if cfg.cooldown > 0 { WasRestedStays(origin, log, longer, n, m, cfg, user); }
  }

  // Somebody had an active row of the user for the challenge in a state after the first n entries.
  ghost predicate WasTaken(origin: State, log: seq<Entry>, n: nat, challenge: string, user: int) {
    exists seen :: Visited(origin, log, n, seen) && !KeyFree(seen, challenge, user)
  }

  lemma WasTakenStays(
    origin: State, log: seq<Entry>, longer: seq<Entry>, n: nat, m: nat, challenge: string, user: int)
    requires WasTaken(origin, log, n, challenge, user) && log <= longer && m <= n
    ensures WasTaken(origin, longer, m, challenge, user)
  {
    var seen :| Visited(origin, log, n, seen) && !KeyFree(seen, challenge, user);
    VisitedStays(origin, log, longer, n, m, seen);
  }

  // What must have gone wrong for a start to leave its container without row: the removal failed,
  // and before it the insert, unless somebody else had the row; that needs a second process.
  ghost predicate Stranded(
    k: Setup, origin: State, log: seq<Entry>, n: nat, before: nat, after: nat, challenge: string, user: int)
  {
    && before + (if k.solo then 2 else 1) <= after
    && (after == before + 1 ==> WasTaken(origin, log, n, challenge, user))
  }

  lemma StrandedStays(
    k: Setup, origin: State, log: seq<Entry>, longer: seq<Entry>, n: nat, m: nat, before: nat, after: nat,
    challenge: string, user: int)
    requires Stranded(k, origin, log, n, before, after, challenge, user) && log <= longer && m <= n
    ensures Stranded(k, origin, longer, m, before, after, challenge, user)
  {
    if after == before + 1 { WasTakenStays(origin, log, longer, n, m, challenge, user); }
  }

  // The checks that let a start through, as they stand in state s.
  ghost predicate MayStart(k: Setup, s: State, cfg: Config, user: int) {
    && KeyFree(s, cfg.id, user)
    && RoomFor(s, cfg)
    && (cfg.cooldown > 0 ==> forall id | id in s.rows && s.rows[id].Owned(cfg.id, user) ::
          s.rows[id].startedAt + cfg.cooldown <= s.now)
  }

  ghost predicate PortFree(k: Setup, s: State, port: int) {
    k.Pooled() ==>
      && k.portMin <= port <= k.portMax
      && forall id | id in s.rows && s.rows[id].Active() :: s.rows[id].port != port
  }

  lemma StartChecksStay(k: Setup, s: State, t: State, cfg: Config, user: int, port: int)
    requires RowsHeld(s, t)
    ensures MayStart(k, s, cfg, user) ==> MayStart(k, t, cfg, user)
    ensures PortFree(k, s, port) ==> PortFree(k, t, port)
  {
    ActiveShrinks(s, t, cfg.id);
  }

  predicate Launches(me: Actor, acts: seq<Event>, leaks: seq<Event>, cfg: Config, user: int, r: Placement) {
    && Attempts(leaks)
    && match r
       case Placed(cid, port) => acts == leaks + [Launch(cid, Container(cfg.id, user, port, me))]
       case Unplaced(_) => acts == leaks
  }

  function Draft(cfg: Config, user: int, port: int, cid: Cid): Row {
    Row(cfg.id, user, Running, port, 0, 0, 0, None, cid)
  }

  // The search has reached port: every lower one is held in the listing or was refused.
  ghost predicate Searching(
    p: Platform, me: Actor, start: State, base: seq<Event>, listed: State, port: int, used: set<int>, acts: seq<Event>)
    reads p
  {
    && p.Valid() && p.st.Holds(me) && p.setup.Pooled()
    && p.setup.portMin <= port <= p.setup.portMax + 1
    && Steady(p.setup, me, start, p.st) && Steady(p.setup, me, listed, p.st)
    && Mine(p.log, me) == base + acts && Attempts(acts)
    && used == ActivePorts(listed) + Refusals(acts) && TakenBelow(p.setup, port, used)
  }

  method TryPort(
    p: Platform, me: Actor, ghost start: State, ghost base: seq<Event>, ghost listed: State,
    user: int, cfg: Config, port: int, used: set<int>, ghost acts: seq<Event>)
    returns (reply: StartReply, ghost step: seq<Event>)
    requires Searching(p, me, start, base, listed, port, used, acts) && port <= p.setup.portMax
    modifies p
    ensures reply.PortBusy? ==> Searching(p, me, start, base, listed, port + 1, used + {port}, acts + step)
    ensures !reply.PortBusy? ==>
              && p.Valid() && p.st.Holds(me) && Mine(p.log, me) == base + acts + step
              && Steady(p.setup, me, start, p.st) && Steady(p.setup, me, listed, p.st)
              && Refusals(acts + step) == Refusals(acts)
    ensures reply.StartFailed? ==> Attempts(acts + step)
    ensures reply.Started? ==>
              && FreshContainer(p.st, me, Draft(cfg, user, reply.port, reply.cid)) && reply.port == port
              && step == [Launch(reply.cid, Container(cfg.id, user, port, me))]
    ensures old(p.log) <= p.log && p.faults == old(p.faults) + (if reply.StartFailed? then 1 else 0)
  {
    ghost var s := p.st;
    reply, step := p.StartContainer(me, cfg.id, user, port);
    SteadyTransitive(p.setup, me, start, s, p.st);
    SteadyTransitive(p.setup, me, listed, s, p.st);
    Joined(base, acts, step);
    PortPassed(p.setup, listed, port, used, acts, step);
  }

  lemma PortPassed(k: Setup, listed: State, port: int, used: set<int>, acts: seq<Event>, step: seq<Event>)
    requires used == ActivePorts(listed) + Refusals(acts) && TakenBelow(k, port, used) && Attempts(acts)
    requires |step| == 1 || (|step| == 2 && step[0].Launch? && !step[1].Launch?)
    requires step[|step| - 1] == Busy(port) || step[|step| - 1] == Abort || step[|step| - 1].Launch?
    ensures step[|step| - 1].Launch? || Attempts(acts + step)
    ensures TakenBelow(k, port + 1, used + {port})
    ensures
      if step[|step| - 1] == Busy(port)
      then used + {port} == ActivePorts(listed) + Refusals(acts + step)
      else Refusals(acts + step) == Refusals(acts)
  {
    RefusalsMore(acts, step);
    if !step[|step| - 1].Launch? { AttemptsJoin(acts, step); }
  }

  // startContainer with a pool: ports are tried upwards from portMin, skipping those of active
  // rows; a port the engine refuses to bind is passed over. The port found is the least one that is
  // neither held in the listing nor refused.
  method PlaceInPool(p: Platform, me: Actor, user: int, cfg: Config)
    returns (r: Placement, ghost listed: State, ghost acts: seq<Event>, ghost leaks: seq<Event>)
    requires p.Valid() && p.st.Holds(me) && p.setup.Pooled()
    modifies p
    ensures p.Valid() && p.st.Holds(me) && Steady(p.setup, me, old(p.st), p.st)
    ensures Steady(p.setup, me, old(p.st), listed) && Steady(p.setup, me, listed, p.st) && listed.Holds(me)
    ensures Visited(p.origin, p.log, |old(p.log)|, listed)
    ensures old(p.log) <= p.log && Mine(p.log, me) == Mine(old(p.log), me) + acts && Launches(me, acts, leaks, cfg, user, r)
    ensures r.Placed? ==>
              && FreshContainer(p.st, me, Draft(cfg, user, r.port, r.cid))
              && p.setup.portMin <= r.port <= p.setup.portMax
              && r.port !in ActivePorts(listed) + Refusals(acts)
              && TakenBelow(p.setup, r.port, ActivePorts(listed) + Refusals(acts))
    ensures r == Unplaced(PortExhausted) ==>
              TakenBelow(p.setup, p.setup.portMax + 1, ActivePorts(listed) + Refusals(acts))
    ensures r.Unplaced? ==> r.why in {Backend, PortExhausted}
    ensures p.faults == old(p.faults) + (if r == Unplaced(Backend) then 1 else 0)
  {
    acts, leaks := [], [];
    var ports := p.ListActivePorts(me);
    listed := p.st;
    VisitedNow(p.origin, p.log, |old(p.log)|);
    if ports.None? { return Unplaced(Backend), listed, acts, leaks; }
    var used := ports.value;
    var port := p.setup.portMin;
    while port <= p.setup.portMax
      invariant p.faults == old(p.faults) && old(p.log) <= p.log
      invariant Visited(p.origin, p.log, |old(p.log)|, listed)
      invariant acts == leaks && Searching(p, me, old(p.st), Mine(old(p.log), me), listed, port, used, acts)
    {
      if port in used {
        port := port + 1;
        continue;
      }
      var reply;
      ghost var step, l := [], p.log;
      reply, step := TryPort(p, me, old(p.st), Mine(old(p.log), me), listed, user, cfg, port, used, acts);
      VisitedStays(p.origin, l, p.log, |old(p.log)|, |old(p.log)|, listed);
      Joined(Mine(old(p.log), me), acts, step);
      acts := acts + step;
      match reply
      case Started(cid, published) => return Placed(cid, published), listed, acts, leaks;
      case StartFailed => leaks := acts; return Unplaced(Backend), listed, acts, leaks;
      case PortBusy =>
        leaks := acts;
        used := used + {port};
        port := port + 1;
    }
    return Unplaced(PortExhausted), listed, acts, leaks;
  }

  lemma RefusalsMore(a: seq<Event>, b: seq<Event>)
    ensures Refusals(a + b) == Refusals(a) + Refusals(b)
    ensures |b| == 1 ==> Refusals(b) == (if b[0].Busy? then {b[0].port} else {})
    ensures |b| == 2 && b[0].Launch? ==> Refusals(b) == (if b[1].Busy? then {b[1].port} else {})
  {
    forall port | port in Refusals(a) + Refusals(b) ensures port in Refusals(a + b) {
      if port in Refusals(a) {
        var i :| 0 <= i < |a| && a[i].Busy? && a[i].port == port;
        assert (a + b)[i] == a[i];
      } else {
        var i :| 0 <= i < |b| && b[i].Busy? && b[i].port == port;
        assert (a + b)[|a| + i] == b[i];
      }
    }
  }

  // Every pool port was held by an active row of some state after the first n entries, or was
  // refused.
  ghost predicate PoolTaken(k: Setup, origin: State, log: seq<Entry>, n: nat, acts: seq<Event>) {
    && k.Pooled()
    && exists listed :: Visited(origin, log, n, listed) && TakenBelow(k, k.portMax + 1, ActivePorts(listed) + Refusals(acts))
  }

  lemma PoolTakenEarlier(k: Setup, origin: State, log: seq<Entry>, n: nat, m: nat, acts: seq<Event>)
    requires PoolTaken(k, origin, log, n, acts) && m <= n
    ensures PoolTaken(k, origin, log, m, acts)
  {
    var listed :| Visited(origin, log, n, listed) && TakenBelow(k, k.portMax + 1, ActivePorts(listed) + Refusals(acts));
    VisitedStays(origin, log, log, n, m, listed);
  }

  // startContainer. Without a pool the engine picks the port.
  method PlaceContainer(p: Platform, me: Actor, user: int, cfg: Config)
    returns (r: Placement, ghost acts: seq<Event>, ghost leaks: seq<Event>)
    requires p.Valid() && p.st.Holds(me)
    modifies p
    ensures p.Valid() && p.st.Holds(me) && Steady(p.setup, me, old(p.st), p.st)
    ensures old(p.log) <= p.log && Mine(p.log, me) == Mine(old(p.log), me) + acts && Launches(me, acts, leaks, cfg, user, r)
    ensures r.Placed? ==> FreshContainer(p.st, me, Draft(cfg, user, r.port, r.cid))
    ensures r.Placed? && p.setup.solo ==> PortFree(p.setup, p.st, r.port)
    ensures r.Unplaced? ==> r.why in {Backend, PortExhausted}
    ensures r == Unplaced(PortExhausted) ==> PoolTaken(p.setup, p.origin, p.log, |old(p.log)|, acts)
    ensures p.faults == old(p.faults) + (if r == Unplaced(Backend) then 1 else 0)
  {
    if p.setup.portMin <= 0 || p.setup.portMax <= 0 || p.setup.portMin > p.setup.portMax {
      var reply;
      reply, acts := p.StartContainer(me, cfg.id, user, 0);
      leaks := if reply.Started? then [] else acts;
      r := if reply.Started? then Placed(reply.cid, reply.port) else Unplaced(Backend);
    } else {
      ghost var listed;
      r, listed, acts, leaks := PlaceInPool(p, me, user, cfg);
      if p.setup.solo && r.Placed? {
        assert PortFree(p.setup, listed, r.port);
        StartChecksStay(p.setup, listed, p.st, cfg, user, r.port);
      }
    }
  }

  // If the pool is larger than the ports held and refused together, a port is found.
  lemma PoolNotExhausted(k: Setup, taken: set<int>)
    requires k.Pooled() && TakenBelow(k, k.portMax + 1, taken)
    ensures k.portMax - k.portMin + 1 <= |taken|
  {
    RangeInside(k.portMin, k.portMax + 1, taken);
  }

  lemma {:induction false} RangeInside(low: int, high: int, taken: set<int>)
    requires low <= high && forall q | low <= q < high :: q in taken
    ensures high - low <= |taken|
    decreases high - low
  {
    if low < high {
      RangeInside(low, high - 1, taken - {high - 1});
    }
  }

  // What a sweep of the listed rows issued: stop and termination of each of the first count rows
  // in turn, then, on failure, at most the stop of the next row, and otherwise the end mark.
  predicate SweepTrace(items: seq<Item>, acts: seq<Event>, count: nat, upTo: int, ok: bool) {
    && 2 * count <= |acts| <= 2 * count + 1
    && count <= |items|
    && (forall i | 0 <= i < count ::
          acts[2 * i] == Stop(items[i].id, ByExpiry) && acts[2 * i + 1].Retire? && acts[2 * i + 1].id == items[i].id)
    && (if ok then count == |items| && acts[2 * count..] == [SweepEnd(upTo)]
        else |acts| > 2 * count ==> count < |items| && acts[2 * count] == Stop(items[count].id, ByExpiry))
  }

  // Every termination was dated within these times.
  predicate Dated(acts: seq<Event>, from: int, to: int) {
    forall e | e in acts && e.Retire? :: from <= e.at <= to
  }

  predicate AllExpired(s: State, items: seq<Item>, now: int) {
    forall i | 0 <= i < |items| :: items[i].id in s.rows && s.rows[items[i].id].expiresAt <= now
  }

  predicate AllRetired(s: State, items: seq<Item>) {
    forall i | 0 <= i < |items| :: items[i].id in s.rows && !s.rows[items[i].id].Active()
  }

  predicate UntouchedExcept(before: map<nat, Row>, after: map<nat, Row>, items: seq<Item>) {
    forall id | id in before && (forall i | 0 <= i < |items| :: items[i].id != id) :: id in after && after[id] == before[id]
  }

  // One more row of the list done: what held of the first n holds of the first n + 1.
  lemma OneMoreRetired(me: Actor, s: State, t: State, items: seq<Item>, n: nat)
    requires Later(me, s, t) && n < |items| && AllRetired(s, items[..n])
    ensures AllRetired(t, items[..n])
    ensures items[n].id in t.rows && !t.rows[items[n].id].Active() ==> AllRetired(t, items[..n + 1])
  {
  }

  lemma OneMoreTouched(before: map<nat, Row>, s: map<nat, Row>, t: map<nat, Row>, items: seq<Item>, n: nat)
    requires n < |items| && UntouchedExcept(before, s, items[..n])
    requires forall id | id in s && id != items[n].id :: id in t && t[id] == s[id]
    ensures UntouchedExcept(before, t, items[..n + 1])
    ensures (items[n].id in s ==> items[n].id in t && t[items[n].id] == s[items[n].id]) ==> UntouchedExcept(before, t, items[..n])
  {
    var more := items[..n + 1];
    forall id | id in before && (forall i | 0 <= i < |more| :: more[i].id != id) ensures id in t && t[id] == before[id] {
      assert more[n].id != id;
      assert forall i | 0 <= i < n :: items[..n][i] == more[i];
    }
  }

  class Service {
    const p: Platform

    constructor (p: Platform)
      ensures this.p == p
    {
      this.p := p;
    }

    // The challenge a request names and what must be configured before it is served.
    method Configuration(me: Actor, ref: string, needsRuntime: bool) returns (stop: Option<Failure>, cfg: Config)
      requires p.Valid() && p.st.Holds(me)
      modifies p
      ensures p.Idle(me, old(p.st), old(p.log))
      ensures stop.None? ==> Resolve(p.setup, ref) == Some(cfg) && cfg.dynamic
      ensures stop.None? && needsRuntime ==> cfg.configId != 0 && cfg.image != "" && cfg.containerPort != 0
      ensures stop.Some? ==> stop.value in {Backend, ChallengeNotFound, ChallengeNotDynamic, RuntimeConfigMissing}
      ensures stop.Some? ==> ConfigExplains(p.setup, ref, stop.value, needsRuntime)
      ensures p.faults == old(p.faults) + (if stop == Some(Backend) then 1 else 0)
    {
      cfg := *;
      var reply := p.ChallengeConfig(me, ref);
      match reply
      case ConfigFailed => stop := Some(Backend);
      case NoConfig => stop := Some(ChallengeNotFound);
      case Configured(c) =>
        cfg := c;
        stop :=
          if !cfg.dynamic then Some(ChallengeNotDynamic)
          else if needsRuntime && (cfg.configId == 0 || cfg.image == "" || cfg.containerPort == 0)
          then Some(RuntimeConfigMissing)
          else None;
    }

    method CheckCapacity(me: Actor, cfg: Config) returns (stop: Option<Failure>)
      requires p.Valid() && p.st.Holds(me)
      modifies p
      ensures p.Idle(me, old(p.st), old(p.log))
      ensures stop.None? && cfg.maxActive > 0 ==> |p.st.ActiveOf(cfg.id)| < cfg.maxActive
      ensures stop == Some(CapacityReached) ==> cfg.maxActive > 0 && |p.st.ActiveOf(cfg.id)| >= cfg.maxActive
      ensures stop.Some? ==> stop.value in {Backend, CapacityReached}
      ensures p.faults == old(p.faults) + (if stop == Some(Backend) then 1 else 0)
    {
      stop := None;
      if cfg.maxActive > 0 {
        var count := p.CountActive(me, cfg.id);
        if count.None? {
          stop := Some(Backend);
        } else if count.value >= cfg.maxActive {
          stop := Some(CapacityReached);
        }
      } else {
        p.Others(me);
      }
    }

    method CheckCooldown(me: Actor, user: int, cfg: Config) returns (stop: Option<Failure>)
      requires p.Valid() && p.st.Holds(me)
      modifies p
      ensures p.Valid() && p.st.Holds(me) && old(p.log) <= p.log && Mine(p.log, me) == Mine(old(p.log), me)
      ensures Steady(p.setup, me, old(p.st), p.st)
      ensures stop.None? && p.setup.solo && cfg.cooldown > 0 ==>
                forall id | id in p.st.rows && p.st.rows[id].Owned(cfg.id, user) ::
                  p.st.rows[id].startedAt + cfg.cooldown <= p.st.now
      ensures stop == Some(CooldownActive) ==>
                cfg.cooldown > 0 && exists id ::
                  id in p.st.rows && p.st.rows[id].Owned(cfg.id, user) && p.st.now < p.st.rows[id].startedAt + cfg.cooldown
      ensures stop.None? && cfg.cooldown > 0 ==> WasRested(p.origin, p.log, |old(p.log)|, cfg, user)
      ensures stop.Some? ==> stop.value in {Backend, CooldownActive}
      ensures p.faults == old(p.faults) + (if stop == Some(Backend) then 1 else 0)
    {
      stop := None;
      if cfg.cooldown <= 0 { p.Others(me); return; }
      var latest := p.LatestInstance(me, user, cfg.id);
      ghost var s, l := p.st, p.log;
      match latest
      case Failed => stop := Some(Backend);
      case Missing =>
        VisitedNow(p.origin, p.log, |l|);
        InTurn(p.origin, l, p.log, |old(p.log)|, s);
        assert RestedAt(s, cfg, user, s.now);
      case Found(id, row) =>
        var now := p.Clock(me);
        VisitedNow(p.origin, p.log, |l|);
        InTurn(p.origin, l, p.log, |old(p.log)|, p.st);
        assert now >= row.startedAt + cfg.cooldown ==> RestedAt(s, cfg, user, p.st.now);
        SteadyTransitive(p.setup, me, old(p.st), s, p.st);
        if now < row.startedAt + cfg.cooldown {
          stop := Some(CooldownActive);
          assert p.st.rows[id].startedAt == row.startedAt;
        }
    }

    // StartInstance up to the start of a container.
    method CheckStart(me: Actor, user: int, ref: string) returns (stop: Option<StartResult>, cfg: Config)
      requires p.Valid() && p.st.Holds(me)
      modifies p
      ensures p.Valid() && p.st.Holds(me) && old(p.log) <= p.log && Mine(p.log, me) == Mine(old(p.log), me)
      ensures stop.None? ==> Resolve(p.setup, ref) == Some(cfg) && Serves(p.setup, ref, true)
      ensures Steady(p.setup, me, old(p.st), p.st)
      ensures stop.Some? ==> !stop.value.Created? && stop.value != Refused(PortExhausted)
      ensures stop.Some? ==> Explains(p.setup, p.st, user, ref, stop.value)
      ensures stop.None? && p.setup.solo ==> MayStart(p.setup, p.st, cfg, user)
      ensures stop.None? ==> Cleared(p.origin, p.log, |old(p.log)|, cfg, user)
      ensures stop.None? || stop.value in {Refused(CapacityReached), Refused(CooldownActive)} ==>
                && Resolve(p.setup, ref).Some?
                && WasFree(p.origin, p.log, |old(p.log)|, Resolve(p.setup, ref).value.id, user)
      ensures p.faults == old(p.faults) + (if stop == Some(Refused(Backend)) then 1 else 0)
    {
      var failure;
      failure, cfg := Configuration(me, ref, true);
      if failure.Some? { return Some(Refused(failure.value)), cfg; }
      ghost var s := p.st;
      var existing := p.ActiveInstance(me, user, cfg.id);
      SteadyTransitive(p.setup, me, old(p.st), s, p.st);
      if existing.Found? { return Some(Existing(existing.id, existing.row)), cfg; }
      if existing.Failed? { return Some(Refused(Backend)), cfg; }
      s := p.st;
      ghost var l := p.log;
      VisitedNow(p.origin, l, |old(p.log)|);
      failure := CheckLimits(me, user, cfg);
      SteadyTransitive(p.setup, me, old(p.st), s, p.st);
      if failure == Some(Backend) { return Some(Refused(Backend)), cfg; }
      VisitedStays(p.origin, l, p.log, |old(p.log)|, |old(p.log)|, s);
      if failure.None? { ClearedStays(p.origin, p.log, p.log, |l|, |old(p.log)|, cfg, user); }
      stop := if failure.Some? then Some(Refused(failure.value)) else None;
    }

    // The checks of a start that found no active row.
    method CheckLimits(me: Actor, user: int, cfg: Config) returns (stop: Option<Failure>)
      requires p.Valid() && p.st.Holds(me) && KeyFree(p.st, cfg.id, user)
      modifies p
      ensures p.Valid() && p.st.Holds(me) && old(p.log) <= p.log && Mine(p.log, me) == Mine(old(p.log), me)
      ensures Steady(p.setup, me, old(p.st), p.st)
      ensures stop.None? && p.setup.solo ==> MayStart(p.setup, p.st, cfg, user)
      ensures stop.None? ==> Cleared(p.origin, p.log, |old(p.log)|, cfg, user)
      ensures stop.Some? ==> stop.value in {Backend, CapacityReached, CooldownActive}
      ensures stop == Some(CapacityReached) ==>
                0 < cfg.maxActive <= |p.st.ActiveOf(cfg.id)| && (p.setup.solo ==> KeyFree(p.st, cfg.id, user))
      ensures stop == Some(CooldownActive) ==>
                && cfg.cooldown > 0
                && (exists id :: id in p.st.rows && p.st.rows[id].Owned(cfg.id, user)
                                 && p.st.now < p.st.rows[id].startedAt + cfg.cooldown)
                && (p.setup.solo ==> KeyFree(p.st, cfg.id, user) && RoomFor(p.st, cfg))
      ensures p.faults == old(p.faults) + (if stop == Some(Backend) then 1 else 0)
    {
      VisitedNow(p.origin, p.log, |p.log|);
      assert WasFree(p.origin, p.log, |p.log|, cfg.id, user);
      stop := CheckCapacity(me, cfg);
      if stop.Some? { return; }
      ghost var s, l := p.st, p.log;
      VisitedNow(p.origin, l, |old(p.log)|);
      assert RoomFor(s, cfg);
      stop := CheckCooldown(me, user, cfg);
      if stop.None? {
        WasFreeStays(p.origin, old(p.log), p.log, |old(p.log)|, |old(p.log)|, cfg.id, user);
        HadRoomStays(p.origin, l, p.log, |old(p.log)|, |old(p.log)|, cfg);
        if cfg.cooldown > 0 { WasRestedStays(p.origin, p.log, p.log, |l|, |old(p.log)|, cfg, user); }
      }
      SteadyTransitive(p.setup, me, old(p.st), s, p.st);
      if p.setup.solo { ActiveShrinks(s, p.st, cfg.id); }
    }

    // Writes the row of a started container; when that fails the container is stopped again, and
    // an instance some other process created in the meantime is returned instead.
    method RecordStart(me: Actor, user: int, cfg: Config, cid: Cid, port: int)
      returns (r: StartResult, ghost acts: seq<Event>)
      requires p.Valid() && p.st.Holds(me) && p.setup.Knows(cfg.id) && p.setup.configs[cfg.id] == cfg
      requires FreshContainer(p.st, me, Draft(cfg, user, port, cid))
      requires p.setup.solo ==> MayStart(p.setup, p.st, cfg, user) && PortFree(p.setup, p.st, port)
      modifies p
      ensures p.Valid() && p.st.Holds(me) && old(p.log) <= p.log && Mine(p.log, me) == Mine(old(p.log), me) + acts
      ensures r.Created? ==> acts == [Insert(r.id, r.row)] && r.id !in old(p.st).rows
      ensures r.Created? ==> r.id in p.st.rows && p.st.rows[r.id] == r.row
      ensures r.Created? ==>
        r.row == Row(cfg.id, user, Running, port, 0, r.row.startedAt, r.row.startedAt + cfg.ttl, None, cid)
      ensures r.Refused? ==> r.why == Backend
      ensures !r.Created? ==> acts == [] || (acts == [Reap(cid)] && cid !in p.st.alive)
      ensures r.Existing? ==> p.st.ActiveRow(r.id) && p.st.rows[r.id] == r.row && r.row.Owned(cfg.id, user)
      ensures p.faults >= old(p.faults) && (r.Created? ==> p.faults == old(p.faults))
      ensures r.Created? ==> old(p.st).now <= r.row.startedAt <= p.st.now
      ensures p.faults == old(p.faults) && !r.Created? ==> acts == [Reap(cid)] && !p.setup.solo
      ensures p.faults == old(p.faults) && r.Refused? ==> KeyFree(p.st, cfg.id, user)
      ensures !r.Created? && acts == [] ==>
                Stranded(p.setup, p.origin, p.log, |old(p.log)|, old(p.faults), p.faults, cfg.id, user)
    {
      acts := [];
      ghost var s := p.st;
      var now := p.Clock(me);
      var row := Row(cfg.id, user, Running, port, 0, now, now + cfg.ttl, None, cid);
      FreshStays(me, s, p.st, Draft(cfg, user, port, cid));
      if p.setup.solo { StartChecksStay(p.setup, s, p.st, cfg, user, port); }
      ghost var s1 := p.st;
      p.Sound();
      var id;
      ghost var mid;
      id, mid := p.InsertInstance(me, row);
      if id.Some? {
        acts := [Insert(id.value, row)];
        return Created(id.value, row), acts;
      }
      FreshStays(me, s1, p.st, row);
      ghost var l := p.log;
      if p.faults == old(p.faults) { TakenNow(|old(p.log)|, cfg.id, user); }
      r, acts := Withdraw(me, user, cfg, cid);
      if WasTaken(p.origin, l, |old(p.log)|, cfg.id, user) {
        WasTakenStays(p.origin, l, p.log, |old(p.log)|, |old(p.log)|, cfg.id, user);
      }
    }

    lemma TakenNow(n: nat, challenge: string, user: int)
      requires p.Valid() && n <= |p.log| && !KeyFree(p.st, challenge, user)
      ensures WasTaken(p.origin, p.log, n, challenge, user)
    {
      VisitedNow(p.origin, p.log, n);
    }

    // The own container is stopped, whether or not that works, and the winner's row looked up.
    method Withdraw(me: Actor, user: int, cfg: Config, cid: Cid) returns (r: StartResult, ghost acts: seq<Event>)
      requires p.Valid() && p.st.Holds(me) && Enabled(p.setup, p.st, me, Reap(cid)) && cid in p.st.issued
      modifies p
      ensures p.Valid() && p.st.Holds(me) && old(p.log) <= p.log && Mine(p.log, me) == Mine(old(p.log), me) + acts
      ensures acts == [] || (acts == [Reap(cid)] && cid !in p.st.alive)
      ensures if r.Existing? then p.st.ActiveRow(r.id) && p.st.rows[r.id] == r.row && r.row.Owned(cfg.id, user)
              else r == Refused(Backend)
      ensures p.faults >= old(p.faults) + (if acts == [] then 1 else 0)
      ensures r.Refused? && p.faults == old(p.faults) + (if acts == [] then 1 else 0) ==> KeyFree(p.st, cfg.id, user)
    {
      acts := [];
      var stopped;
      ghost var mid;
      stopped, mid := p.StopContainer(me, cid, Reap(cid));
      if stopped { acts := [Reap(cid)]; }
      var winner := p.ActiveInstance(me, user, cfg.id);
      r := if winner.Found? then Existing(winner.id, winner.row) else Refused(Backend);
    }

    // An internal error is answered only if a statement or call failed, or if another process won
    // the row and it was gone again when looked up, in state s; the own container was removed then.
    ghost predicate FaultsExplain(
      s: State, user: int, ref: string, before: nat, after: nat, acts: seq<Event>, n: nat, r: StartResult)
    {
      && (r.Created? ==> after == before)
      && (r == Refused(Backend) && after == before ==>
            && !p.setup.solo && |acts| == n + 2
            && Resolve(p.setup, ref).Some? && KeyFree(s, Resolve(p.setup, ref).value.id, user))
      && (r.Refused? && r.why != Backend ==> after == before)
    }

    // StartInstance between taking and releasing the mutex.
    method StartLocked(me: Actor, user: int, ref: string)
      returns (r: StartResult, ghost acts: seq<Event>, ghost n: nat)
      requires p.Valid() && p.st.Holds(me)
      modifies p
      ensures p.Valid() && p.st.Holds(me)
      ensures old(p.log) <= p.log && Mine(p.log, me) == Mine(old(p.log), me) + acts && StartTrace(me, acts, n, r)
      ensures Explains(p.setup, p.st, user, ref, r)
      ensures r.Created? ==> NewRow(p.setup, r.row) && r.id !in old(p.st).rows
      ensures r.Created? ==> old(p.st).now <= r.row.startedAt <= p.st.now
      ensures FaultsExplain(p.st, user, ref, old(p.faults), p.faults, acts, n, r)
      ensures r == Refused(PortExhausted) ==> PoolTaken(p.setup, p.origin, p.log, |old(p.log)|, acts)
      ensures r.Created? || acts != [] ==>
                && Serves(p.setup, ref, true)
                && Cleared(p.origin, p.log, |old(p.log)|, Resolve(p.setup, ref).value, user)
      ensures !r.Created? && |acts| == n + 1 ==>
                && Resolve(p.setup, ref).Some?
                && var id := Resolve(p.setup, ref).value.id;
                   Stranded(p.setup, p.origin, p.log, |old(p.log)|, old(p.faults), p.faults, id, user)
    {
      var stop, cfg := CheckStart(me, user, ref);
      if stop.Some? { return stop.value, [], 0; }
      ghost var l := p.log;
      r, acts, n := StartChecked(me, user, ref, cfg);
      ClearedStays(p.origin, l, p.log, |old(p.log)|, |old(p.log)|, cfg, user);
      if !r.Created? && |acts| == n + 1 {
        StrandedStays(p.setup, p.origin, p.log, p.log, |l|, |old(p.log)|, old(p.faults), p.faults, cfg.id, user);
      }
      if r == Refused(PortExhausted) { PoolTakenEarlier(p.setup, p.origin, p.log, |l|, |old(p.log)|, acts); }
    }

    // A start that passed the checks.
    method StartChecked(me: Actor, user: int, ref: string, cfg: Config)
      returns (r: StartResult, ghost acts: seq<Event>, ghost n: nat)
      requires p.Valid() && p.st.Holds(me) && Resolve(p.setup, ref) == Some(cfg) && Serves(p.setup, ref, true)
      requires p.setup.solo ==> MayStart(p.setup, p.st, cfg, user)
      modifies p
      ensures p.Valid() && p.st.Holds(me)
      ensures old(p.log) <= p.log && Mine(p.log, me) == Mine(old(p.log), me) + acts && StartTrace(me, acts, n, r)
      ensures Explains(p.setup, p.st, user, ref, r)
      ensures r.Created? ==> NewRow(p.setup, r.row) && r.id !in old(p.st).rows
      ensures r.Created? ==> old(p.st).now <= r.row.startedAt <= p.st.now
      ensures FaultsExplain(p.st, user, ref, old(p.faults), p.faults, acts, n, r)
      ensures r == Refused(PortExhausted) ==> PoolTaken(p.setup, p.origin, p.log, |old(p.log)|, acts)
      ensures !r.Created? && |acts| == n + 1 ==>
                && Resolve(p.setup, ref).Some?
                && var id := Resolve(p.setup, ref).value.id;
                   Stranded(p.setup, p.origin, p.log, |old(p.log)|, old(p.faults), p.faults, id, user)
    {
      ghost var leaks;
      var placed;
      ghost var s := p.st;
      placed, acts, leaks := PlaceContainer(p, me, user, cfg);
      n := |leaks|;
      if p.setup.solo { StartChecksStay(p.setup, s, p.st, cfg, user, if placed.Placed? then placed.port else 0); }
      if placed.Unplaced? { return Refused(placed.why), acts, n; }
      ghost var last;
      ghost var l := p.log;
      r, last := RecordStart(me, user, cfg, placed.cid, placed.port);
      if !r.Created? && last == [] {
        StrandedStays(p.setup, p.origin, p.log, p.log, |l|, |old(p.log)|, old(p.faults), p.faults, cfg.id, user);
      }
      acts := acts + last;
    }

    // A request that had the mutex was answered in state at of the run; then others acted until it
    // released the mutex in state end.
    twostate predicate Answered(me: Actor, acts: seq<Event>, at: State, end: State)
      reads p
    {
      && old(p.log) <= p.log && Mine(p.log, me) == Mine(old(p.log), me) + ([Lock] + acts + [Unlock])
      && p.Between(me, at, end) && end.Holds(me) && p.st == Apply(end, me, Unlock)
      && Visited(p.origin, p.log, |old(p.log)|, at)
    }

    // Waits for the mutex.
    method Enter(me: Actor) returns (got: bool)
      requires p.Valid() && me.Worker?
      modifies p
      ensures p.Valid() && old(p.log) <= p.log && p.faults == old(p.faults) && old(p.st).now <= p.st.now
      ensures Mine(p.log, me) == Mine(old(p.log), me) + (if got then [Lock] else [])
      ensures if got then p.st.Holds(me) else p.Blocked(me)
      ensures p.calm ==> p.st.rows == old(p.st).rows
    {
      ghost var mid;
      got, mid := p.Acquire(me);
    }

    // The answer is given in state at, before the mutex is released.
    method Leave(me: Actor, ghost n: nat) returns (ghost at: State, ghost end: State)
      requires p.Valid() && p.st.Holds(me) && n <= |p.log|
      modifies p
      ensures p.Valid() && old(p.log) <= p.log && Mine(p.log, me) == Mine(old(p.log), me) + [Unlock]
      ensures at == old(p.st) && Visited(p.origin, p.log, n, at) && p.faults == old(p.faults)
      ensures p.Between(me, at, end) && end.Holds(me) && p.st == Apply(end, me, Unlock)
    {
      at := p.st;
      ghost var l := p.log;
      VisitedNow(p.origin, l, n);
      end := p.Release(me);
      VisitedStays(p.origin, l, p.log, n, n, at);
    }

    method StartInstance(me: Actor, user: int, ref: string)
      returns (r: StartResult, ghost acts: seq<Event>, ghost n: nat, ghost at: State, ghost end: State)
      requires p.Valid() && me.Worker?
      modifies p
      ensures p.Valid()
      ensures r == Refused(Waiting) ==>
                acts == [] && p.Blocked(me) && old(p.log) <= p.log && Mine(p.log, me) == Mine(old(p.log), me)
      ensures r != Refused(Waiting) ==>
                Answered(me, acts, at, end) && StartTrace(me, acts, n, r) && Explains(p.setup, at, user, ref, r)
      ensures r.Created? ==> NewRow(p.setup, r.row) && old(p.st).now <= r.row.startedAt <= at.now
      ensures FaultsExplain(at, user, ref, old(p.faults), p.faults, acts, n, r)
      ensures r.Created? || acts != [] ==>
                && Serves(p.setup, ref, true)
                && Cleared(p.origin, p.log, |old(p.log)|, Resolve(p.setup, ref).value, user)
      ensures !r.Created? && |acts| == n + 1 ==>
                && Resolve(p.setup, ref).Some?
                && var id := Resolve(p.setup, ref).value.id;
                   Stranded(p.setup, p.origin, p.log, |old(p.log)|, old(p.faults), p.faults, id, user)
    {
      acts, n, at, end := [], 0, p.st, p.st;
      var got := Enter(me);
      if !got { return Refused(Waiting), acts, n, at, end; }
      ghost var l := p.log;
      r, acts, n := StartLocked(me, user, ref);
      ghost var l1 := p.log;
      at, end := Leave(me, |old(p.log)|);
      Bracketed(Mine(old(p.log), me), acts);
      if r.Created? || acts != [] {
        ClearedStays(p.origin, l1, p.log, |l|, |old(p.log)|, Resolve(p.setup, ref).value, user);
      }
      if !r.Created? && |acts| == n + 1 {
        StrandedStays(
          p.setup, p.origin, l1, p.log, |l|, |old(p.log)|, old(p.faults), p.faults, Resolve(p.setup, ref).value.id, user);
      }
    }

    // ---- Renewal and deletion ------------------------------------------------------------------

    // The active instance a user asks about.
    method OwnInstance(me: Actor, user: int, ref: string, needsRuntime: bool)
      returns (stop: Option<Failure>, cfg: Config, id: nat, row: Row)
      requires p.Valid() && p.st.Holds(me)
      modifies p
      ensures p.Valid() && p.st.Holds(me) && old(p.log) <= p.log && Mine(p.log, me) == Mine(old(p.log), me)
      ensures stop.None? ==>
                && Resolve(p.setup, ref) == Some(cfg) && Serves(p.setup, ref, needsRuntime)
                && p.st.ActiveRow(id) && p.st.rows[id] == row && row.Owned(cfg.id, user)
      ensures stop == Some(InstanceNotFound) ==>
                Serves(p.setup, ref, needsRuntime) && KeyFree(p.st, Resolve(p.setup, ref).value.id, user)
      ensures stop.Some? ==> ConfigExplains(p.setup, ref, stop.value, needsRuntime)
      ensures stop.Some? ==> stop.value !in {Waiting, RenewLimitReached}
      ensures Later(me, old(p.st), p.st)
      ensures p.faults == old(p.faults) + (if stop == Some(Backend) then 1 else 0)
    {
      id, row := 0, *;
      stop, cfg := Configuration(me, ref, needsRuntime);
      if stop.Some? { return; }
      var found := p.ActiveInstance(me, user, cfg.id);
      match found
      case Failed => stop := Some(Backend);
      case Missing => stop := Some(InstanceNotFound);
      case Found(i, r) => id, row := i, r;
    }

    // The renewal statement, which runs in state mid.
    method Renew(me: Actor, id: nat, row: Row, cfg: Config)
      returns (renewed: Lookup, ghost acts: seq<Event>, ghost mid: State)
      requires p.Valid() && p.st.Holds(me) && p.st.ActiveRow(id) && p.st.rows[id] == row
      requires p.setup.Knows(row.challenge) && p.setup.configs[row.challenge] == cfg
      requires row.renewals < cfg.maxRenewals
      modifies p
      ensures p.Valid() && p.st.Holds(me) && old(p.log) <= p.log && Mine(p.log, me) == Mine(old(p.log), me) + acts
      ensures !renewed.Found? ==> acts == []
      ensures renewed.Found? ==>
                && renewed.id == id && p.st.ActiveRow(id) && p.st.rows[id] == renewed.row
                && |acts| == 1 && acts[0].Extend? && acts[0].id == id && acts[0].until == renewed.row.expiresAt
                && mid.ActiveRow(id) && SameInstance(mid.rows[id], renewed.row) && SameInstance(row, mid.rows[id])
                && renewed.row.renewals == mid.rows[id].renewals + 1
                && renewed.row.expiresAt == Max(row.expiresAt, acts[0].at) + cfg.ttl
                && old(p.st).now <= acts[0].at <= p.st.now
      ensures renewed.Found? && p.setup.solo ==> mid.rows[id] == row
      ensures Visited(p.origin, p.log, |old(p.log)|, mid)
      ensures renewed.Missing? ==> id in p.st.rows && !p.st.rows[id].Active() && SameInstance(row, p.st.rows[id])
      ensures p.faults == old(p.faults) + (if renewed.Failed? then 1 else 0)
    {
      var now := p.Clock(me);
      ghost var l := p.log;
      renewed, acts, mid := RenewAt(me, id, row, cfg, now);
      VisitedStays(p.origin, p.log, p.log, |l|, |old(p.log)|, mid);
    }

    // The same for a clock reading just taken; row was read before that.
    method RenewAt(me: Actor, id: nat, row: Row, cfg: Config, now: int)
      returns (renewed: Lookup, ghost acts: seq<Event>, ghost mid: State)
      requires p.Valid() && p.st.Holds(me) && id in p.st.rows && SameInstance(row, p.st.rows[id])
      requires p.setup.Knows(row.challenge) && p.setup.configs[row.challenge] == cfg
      requires row.renewals < cfg.maxRenewals && now == p.st.now && (p.setup.solo ==> Settled(row, p.st.rows[id]))
      modifies p
      ensures p.Valid() && p.st.Holds(me) && old(p.log) <= p.log && Mine(p.log, me) == Mine(old(p.log), me) + acts
      ensures !renewed.Found? ==> acts == []
      ensures renewed.Found? ==>
                && acts == [Extend(id, now, Max(row.expiresAt, now) + cfg.ttl)]
                && renewed.id == id && p.st.ActiveRow(id) && p.st.rows[id] == renewed.row
                && renewed.row.expiresAt == Max(row.expiresAt, now) + cfg.ttl
                && mid.ActiveRow(id) && SameInstance(mid.rows[id], renewed.row) && SameInstance(row, mid.rows[id])
                && renewed.row.renewals == mid.rows[id].renewals + 1
      ensures renewed.Found? && p.setup.solo ==> mid.rows[id] == row
      ensures renewed.Missing? ==> id in p.st.rows && !p.st.rows[id].Active() && SameInstance(row, p.st.rows[id])
      ensures Visited(p.origin, p.log, |old(p.log)|, mid) && now <= p.st.now
      ensures p.faults == old(p.faults) + (if renewed.Failed? then 1 else 0)
    {
      acts := [];
      var base := Max(row.expiresAt, now);
      p.MayRenew(me, id, row, now, base + cfg.ttl);
      renewed, mid := p.RenewRow(me, id, now, base + cfg.ttl);
      if renewed.Found? { acts := [Extend(id, now, base + cfg.ttl)]; }
    }

    // What an answer to a renewal begun at time from tells about the state s it was given in: the row
    // was looked up in state seen, and the statement that renewed it ran in state mid.
    ghost predicate RenewalExplains(
      from: int, s: State, user: int, ref: string, stop: Option<Failure>, id: nat, row: Row, acts: seq<Event>,
      seen: State, mid: State)
    {
      match stop
      case None =>
        && Serves(p.setup, ref, true)
        && Renewed(from, s, user, Resolve(p.setup, ref).value, id, row, acts, seen, mid)
      case Some(why) =>
        && acts == [] && ConfigExplains(p.setup, ref, why, true)
        && (why == InstanceNotFound ==>
              && Serves(p.setup, ref, true)
              && var challenge := Resolve(p.setup, ref).value.id;
                 KeyFree(s, challenge, user) || (id in s.rows && s.rows[id].Owned(challenge, user) && !s.rows[id].Active()))
        && (why == RenewLimitReached ==>
              && Serves(p.setup, ref, true) && s.ActiveRow(id)
              && s.rows[id].Owned(Resolve(p.setup, ref).value.id, user)
              && Resolve(p.setup, ref).value.maxRenewals <= s.rows[id].renewals)
    }

    ghost predicate Renewed(
      from: int, s: State, user: int, cfg: Config, id: nat, row: Row, acts: seq<Event>, seen: State, mid: State)
    {
      && row.Owned(cfg.id, user) && s.ActiveRow(id) && s.rows[id] == row
      && |acts| == 1 && acts[0].Extend? && acts[0].id == id && acts[0].until == row.expiresAt
      && from <= acts[0].at <= s.now
      && mid.ActiveRow(id) && SameInstance(mid.rows[id], row) && row.renewals == mid.rows[id].renewals + 1
      && seen.ActiveRow(id) && SameInstance(seen.rows[id], row) && seen.rows[id].renewals < cfg.maxRenewals
      && row.expiresAt == (if seen.rows[id].expiresAt < acts[0].at then acts[0].at else seen.rows[id].expiresAt) + cfg.ttl
      && (p.setup.solo ==> mid.rows[id] == seen.rows[id])
    }

    method RenewLocked(me: Actor, user: int, ref: string)
      returns (stop: Option<Failure>, id: nat, row: Row, ghost acts: seq<Event>, ghost seen: State, ghost mid: State)
      requires p.Valid() && p.st.Holds(me)
      modifies p
      ensures p.Valid() && p.st.Holds(me) && old(p.log) <= p.log && Mine(p.log, me) == Mine(old(p.log), me) + acts
      ensures VisitedInTurn(p.origin, p.log, |old(p.log)|, seen, mid)
      ensures stop != Some(Waiting)
      ensures RenewalExplains(old(p.st).now, p.st, user, ref, stop, id, row, acts, seen, mid)
      ensures p.faults == old(p.faults) + (if stop == Some(Backend) then 1 else 0)
    {
      acts := [];
      var cfg;
      stop, cfg, id, row := OwnInstance(me, user, ref, true);
      seen, mid := p.st, p.st;
      ghost var l := p.log;
      VisitedNow(p.origin, l, |l|);
      InTurn(p.origin, l, l, |old(p.log)|, mid);
      if stop.Some? { return; }
      if row.renewals >= cfg.maxRenewals { stop := Some(RenewLimitReached); return; }
      p.Sound();
      var renewed;
      renewed, acts, mid := Renew(me, id, row, cfg);
      InTurn(p.origin, l, p.log, |old(p.log)|, mid);
      match renewed
      case Failed => stop := Some(Backend);
      case Missing => stop := Some(InstanceNotFound);
      case Found(_, after) => row := after;
    }

    method RenewInstance(me: Actor, user: int, ref: string)
      returns (stop: Option<Failure>, id: nat, row: Row, ghost acts: seq<Event>, ghost seen: State, ghost mid: State,
               ghost at: State, ghost end: State)
      requires p.Valid() && me.Worker?
      modifies p
      ensures p.Valid()
      ensures stop == Some(Waiting) ==>
                acts == [] && p.Blocked(me) && old(p.log) <= p.log && Mine(p.log, me) == Mine(old(p.log), me)
      ensures stop != Some(Waiting) ==>
                && Answered(me, acts, at, end) && VisitedInTurn(p.origin, p.log, |old(p.log)|, seen, mid)
                && RenewalExplains(old(p.st).now, at, user, ref, stop, id, row, acts, seen, mid)
      ensures p.faults == old(p.faults) + (if stop == Some(Backend) then 1 else 0)
    {
      acts, at, end, seen, mid := [], p.st, p.st, p.st, p.st;
      var got := Enter(me);
      if !got { stop, id, row := Some(Waiting), 0, *; return; }
      ghost var from := p.st.now;
      stop, id, row, acts, seen, mid, at, end := RenewHeld(me, user, ref, |old(p.log)|);
      Bracketed(Mine(old(p.log), me), acts);
      RenewalSooner(from, old(p.st).now, at, user, ref, stop, id, row, acts, seen, mid);
    }

    // The renewal and the release of the mutex.
    method RenewHeld(me: Actor, user: int, ref: string, ghost n: nat)
      returns (stop: Option<Failure>, id: nat, row: Row, ghost acts: seq<Event>, ghost seen: State, ghost mid: State,
               ghost at: State, ghost end: State)
      requires p.Valid() && p.st.Holds(me) && n <= |p.log|
      modifies p
      ensures p.Valid() && old(p.log) <= p.log && Mine(p.log, me) == Mine(old(p.log), me) + acts + [Unlock]
      ensures p.Between(me, at, end) && end.Holds(me) && p.st == Apply(end, me, Unlock)
      ensures Visited(p.origin, p.log, n, at) && VisitedInTurn(p.origin, p.log, n, seen, mid) && stop != Some(Waiting)
      ensures RenewalExplains(old(p.st).now, at, user, ref, stop, id, row, acts, seen, mid)
      ensures p.faults == old(p.faults) + (if stop == Some(Backend) then 1 else 0)
    {
      stop, id, row, acts, seen, mid := RenewLocked(me, user, ref);
      ghost var l := p.log;
      at, end := Leave(me, n);
      InTurnStays(p.origin, l, p.log, |old(p.log)|, n, seen, mid);
    }

    lemma RenewalSooner(
      later: int, from: int, s: State, user: int, ref: string, stop: Option<Failure>, id: nat, row: Row, acts: seq<Event>,
      seen: State, mid: State)
      requires RenewalExplains(later, s, user, ref, stop, id, row, acts, seen, mid) && from <= later
      ensures RenewalExplains(from, s, user, ref, stop, id, row, acts, seen, mid)
    {
    }

    // Stops the container of a row and then terminates the row, which must not happen before.
    // stage counts the steps that succeeded.
    method TearDown(me: Actor, id: nat, why: Reason) returns (stage: nat, ghost acts: seq<Event>)
      requires p.Valid() && p.st.Holds(me) && Enabled(p.setup, p.st, me, Stop(id, why))
      modifies p
      ensures p.Valid() && p.st.Holds(me) && Steady(p.setup, me, old(p.st), p.st)
      ensures old(p.log) <= p.log && Mine(p.log, me) == Mine(old(p.log), me) + acts
      ensures stage == |acts| <= 2
      ensures stage >= 1 ==> acts[0] == Stop(id, why)
      ensures stage == 2 ==>
                && acts[1].Retire? && acts[1].id == id
                && id in p.st.rows && !p.st.rows[id].Active() && p.st.rows[id].container !in p.st.alive
      ensures p.calm ==> forall n | n in old(p.st).rows && n != id :: n in p.st.rows && p.st.rows[n] == old(p.st).rows[n]
      ensures stage == 2 ==> old(p.st).now <= acts[1].at <= p.st.now
      ensures p.calm && stage < 2 ==> id in p.st.rows && p.st.rows[id] == old(p.st).rows[id]
      ensures p.faults == old(p.faults) + (if stage < 2 then 1 else 0)
    {
      var ok := StopFor(me, id, why);
      if !ok { return 0, []; }
      ghost var s := p.st;
      acts := [Stop(id, why)];
      ghost var at;
      ok, at := RetireGone(me, id);
      SteadyTransitive(p.setup, me, old(p.st), s, p.st);
      if !ok { return 1, acts; }
      acts := acts + [Retire(id, at)];
      return 2, acts;
    }

    // The row id is left as it was and its container, unless the stop fails, is gone.
    method StopFor(me: Actor, id: nat, why: Reason) returns (ok: bool)
      requires p.Valid() && p.st.Holds(me) && Enabled(p.setup, p.st, me, Stop(id, why))
      modifies p
      ensures p.Valid() && p.st.Holds(me) && Steady(p.setup, me, old(p.st), p.st) && id in p.st.rows
      ensures old(p.log) <= p.log && Mine(p.log, me) == Mine(old(p.log), me) + (if ok then [Stop(id, why)] else [])
      ensures ok ==> p.st.rows[id].container !in p.st.alive
      ensures p.calm ==> p.st.rows == old(p.st).rows
      ensures p.faults == old(p.faults) + (if ok then 0 else 1)
    {
      p.Sound();
      ghost var mid;
      ghost var s := p.st;
      ok, mid := p.StopContainer(me, p.st.rows[id].container, Stop(id, why));
      if ok { OwnStep(p.setup, me, s, mid, Stop(id, why)); }
    }

    method RetireGone(me: Actor, id: nat) returns (ok: bool, ghost at: int)
      requires p.Valid() && p.st.Holds(me) && id in p.st.rows && p.st.rows[id].container !in p.st.alive
      modifies p
      ensures p.Valid() && p.st.Holds(me) && Steady(p.setup, me, old(p.st), p.st) && id in p.st.rows
      ensures old(p.log) <= p.log && Mine(p.log, me) == Mine(old(p.log), me) + (if ok then [Retire(id, at)] else [])
      ensures ok ==> !p.st.rows[id].Active() && p.st.rows[id].container !in p.st.alive
      ensures old(p.st).now <= at <= p.st.now
      ensures p.calm ==> p.st.rows == if ok then old(p.st).rows[id := Retired(old(p.st).rows[id], at)] else old(p.st).rows
      ensures p.faults == old(p.faults) + (if ok then 0 else 1)
    {
      p.Sound();
      ghost var s := p.st;
      var now := p.Clock(me);
      at := now;
      ghost var s1 := p.st;
      ok := RetireAt(me, id, now);
      SteadyTransitive(p.setup, me, s, s1, p.st);
    }

    method RetireAt(me: Actor, id: nat, at: int) returns (ok: bool)
      requires p.Valid() && p.st.Holds(me) && id in p.st.rows && p.st.rows[id].container !in p.st.alive
      modifies p
      ensures p.Valid() && p.st.Holds(me) && Steady(p.setup, me, old(p.st), p.st) && id in p.st.rows
      ensures old(p.log) <= p.log && Mine(p.log, me) == Mine(old(p.log), me) + (if ok then [Retire(id, at)] else [])
      ensures ok ==> !p.st.rows[id].Active() && p.st.rows[id].container !in p.st.alive
      ensures p.calm ==> p.st.rows == if ok then old(p.st).rows[id := Retired(old(p.st).rows[id], at)] else old(p.st).rows
      ensures p.faults == old(p.faults) + (if ok then 0 else 1)
    {
      p.Sound();
      ghost var mid;
      ghost var s := p.st;
      ok, mid := p.RetireRow(me, id, at);
      if ok { OwnStep(p.setup, me, s, mid, Retire(id, at)); }
    }

    // What an answer to a deletion begun at time from tells about the state it was given in.
    ghost predicate DeletionExplains(
      from: int, s: State, user: int, ref: string, stop: Option<Failure>, id: nat, acts: seq<Event>)
    {
      match stop
      case None =>
        && |acts| == 2 && acts[0] == Stop(id, ByOwner(user)) && acts[1].Retire? && acts[1].id == id
        && from <= acts[1].at <= s.now
        && id in s.rows && !s.rows[id].Active() && s.rows[id].container !in s.alive
        && Serves(p.setup, ref, false) && s.rows[id].Owned(Resolve(p.setup, ref).value.id, user)
      case Some(why) =>
        && (acts == [] || (why == Backend && acts == [Stop(id, ByOwner(user))]))
        && why != RenewLimitReached && ConfigExplains(p.setup, ref, why, false)
        && (why == InstanceNotFound ==>
              Serves(p.setup, ref, false) && KeyFree(s, Resolve(p.setup, ref).value.id, user))
    }

    method DeleteLocked(me: Actor, user: int, ref: string)
      returns (stop: Option<Failure>, id: nat, ghost acts: seq<Event>)
      requires p.Valid() && p.st.Holds(me)
      modifies p
      ensures p.Valid() && p.st.Holds(me) && old(p.log) <= p.log && Mine(p.log, me) == Mine(old(p.log), me) + acts
      ensures stop != Some(Waiting) && DeletionExplains(old(p.st).now, p.st, user, ref, stop, id, acts)
      ensures p.faults == old(p.faults) + (if stop == Some(Backend) then 1 else 0)
    {
      acts := [];
      var cfg, row;
      stop, cfg, id, row := OwnInstance(me, user, ref, false);
      if stop.Some? { return; }
      var stage;
      stage, acts := TearDown(me, id, ByOwner(user));
      if stage < 2 { stop := Some(Backend); }
    }

    method DeleteInstance(me: Actor, user: int, ref: string)
      returns (stop: Option<Failure>, id: nat, ghost acts: seq<Event>, ghost at: State, ghost end: State)
      requires p.Valid() && me.Worker?
      modifies p
      ensures p.Valid()
      ensures stop == Some(Waiting) ==>
                acts == [] && p.Blocked(me) && old(p.log) <= p.log && Mine(p.log, me) == Mine(old(p.log), me)
      ensures stop != Some(Waiting) ==>
                Answered(me, acts, at, end) && DeletionExplains(old(p.st).now, at, user, ref, stop, id, acts)
      ensures stop.None? ==> id in p.st.rows && !p.st.rows[id].Active() && p.st.rows[id].container !in p.st.alive
      ensures p.faults == old(p.faults) + (if stop == Some(Backend) then 1 else 0)
    {
      acts, at, end := [], p.st, p.st;
      var got := Enter(me);
      if !got { stop, id := Some(Waiting), 0; return; }
      stop, id, acts := DeleteLocked(me, user, ref);
      p.Sound();
      at, end := Leave(me, |old(p.log)|);
      Bracketed(Mine(old(p.log), me), acts);
      if stop.None? { EndedStays(me, at, end, id); }
    }

    lemma EndedStays(me: Actor, s: State, t: State, id: nat)
      requires Later(me, s, t) && id in s.rows && s.rows[id].container in s.issued
      requires !s.rows[id].Active() && s.rows[id].container !in s.alive
      ensures id in t.rows && !t.rows[id].Active() && t.rows[id].container !in t.alive
    {
    }

    // ---- Sweep ---------------------------------------------------------------------------------

    // Where a sweep stands after count rows: base is what the actor had issued before.
    ghost predicate Sweeping(
      me: Actor, base: seq<Event>, items: seq<Item>, upTo: int, listed: State, count: nat, acts: seq<Event>)
      reads p
    {
      && p.Valid() && p.st.Holds(me) && Mine(p.log, me) == base + acts
      && Steady(p.setup, me, listed, p.st)
      && SweepTrace(items, acts, count, upTo, false) && Dated(acts, upTo, p.st.now)
      && AllRetired(p.st, items[..count])
      && (p.calm ==> UntouchedExcept(listed.rows, p.st.rows, items[..count]))
    }

    // The loop of SweepExpired over the rows read in state listed: each is torn down in turn, and a
    // failure ends the loop.
    method SweepItems(me: Actor, items: seq<Item>, upTo: int, ghost listed: State)
      returns (count: nat, ghost acts: seq<Event>)
      requires p.Valid() && p.st.Holds(me) && p.st == listed && upTo <= listed.now
      requires AllExpired(listed, items, upTo)
      modifies p
      ensures Sweeping(me, Mine(old(p.log), me), items, upTo, listed, count, acts)
      ensures count == |items| ==> |acts| == 2 * count
      ensures old(p.log) <= p.log && p.faults == old(p.faults) + (if count < |items| then 1 else 0)
    {
      count, acts := 0, [];
      while count < |items|
        invariant Sweeping(me, Mine(old(p.log), me), items, upTo, listed, count, acts) && |acts| == 2 * count
        invariant old(p.log) <= p.log && p.faults == old(p.faults)
      {
        var done;
        done, acts := SweepOne(me, Mine(old(p.log), me), items, upTo, listed, count, acts);
        if !done { return; }
        count := count + 1;
      }
    }

    method SweepOne(
      me: Actor, ghost base: seq<Event>, items: seq<Item>, upTo: int, ghost listed: State, count: nat, ghost before: seq<Event>)
      returns (done: bool, ghost acts: seq<Event>)
      requires Sweeping(me, base, items, upTo, listed, count, before) && |before| == 2 * count && count < |items|
      requires listed.Holds(me) && upTo <= listed.now && AllExpired(listed, items, upTo)
      modifies p
      ensures done ==> Sweeping(me, base, items, upTo, listed, count + 1, acts) && |acts| == 2 * (count + 1)
      ensures !done ==> Sweeping(me, base, items, upTo, listed, count, acts)
      ensures old(p.log) <= p.log && p.faults == old(p.faults) + (if done then 0 else 1)
    {
      ghost var s := p.st;
      var stage;
      ghost var step;
      stage, step := TearDown(me, items[count].id, ByExpiry);
      acts := before + step;
      done := stage == 2;
      SteadyTransitive(p.setup, me, listed, s, p.st);
      Joined(base, before, step);
      SweepTraceMore(items, before, step, count, upTo);
      OneMoreRetired(me, s, p.st, items, count);
      if p.calm { OneMoreTouched(listed.rows, s.rows, p.st.rows, items, count); }
    }

    lemma SweepTraceMore(items: seq<Item>, acts: seq<Event>, step: seq<Event>, count: nat, upTo: int)
      requires |acts| == 2 * count && SweepTrace(items, acts, count, upTo, false) && count < |items|
      requires |step| <= 2 && (|step| >= 1 ==> step[0] == Stop(items[count].id, ByExpiry))
      requires |step| == 2 ==> step[1].Retire? && step[1].id == items[count].id
      ensures SweepTrace(items, acts + step, if |step| == 2 then count + 1 else count, upTo, false)
    {
    }

    // Marks the sweep complete; the mark is history and changes no row or container.
    method EndSweep(me: Actor, upTo: int, ghost listed: State, ghost items: seq<Item>)
      requires p.Valid() && p.st.Holds(me) && Steady(p.setup, me, listed, p.st) && listed.Holds(me)
      requires ListsExactly(listed, items, ExpiredIds(listed, upTo)) && upTo <= listed.now
      requires p.setup.solo ==> listed.swept <= upTo
      requires AllRetired(p.st, items)
      modifies p
      ensures p.Valid() && p.st.Holds(me) && old(p.log) <= p.log && Mine(p.log, me) == Mine(old(p.log), me) + [SweepEnd(upTo)]
      ensures p.st == old(p.st).(swept := upTo) && p.faults == old(p.faults)
      ensures p.setup.solo ==> forall id | id in p.st.rows && p.st.rows[id].Active() :: upTo < p.st.rows[id].expiresAt
    {
      if p.setup.solo {
        forall id | id in ExpiredIds(listed, upTo) ensures !p.st.rows[id].Active() {
          assert Item(id, listed.rows[id]) in items;
        }
      }
      p.Act(me, SweepEnd(upTo));
    }

    // With one process nobody else adds, renews or removes a row while the mutex is held.
    ghost predicate RowsKept(s: State, t: State) {
      p.setup.solo ==> t.rows.Keys == s.rows.Keys && forall id | id in s.rows :: Settled(s.rows[id], t.rows[id])
    }

    // What a sweep did: items are the rows that had expired by upTo when listed, count of them are
    // terminated in state s, and if all are, nothing expired is active.
    ghost predicate SweepExplains(
      s: State, listed: State, items: seq<Item>, upTo: int, count: nat, ok: bool, acts: seq<Event>)
    {
      && (items != [] || ok ==> ListsExactly(listed, items, ExpiredIds(listed, upTo)) && SoonestFirst(items))
      && RowsKept(listed, s) && upTo <= listed.now
      && SweepTrace(items, acts, count, upTo, ok) && upTo <= s.now && Dated(acts, upTo, s.now)
      && AllRetired(s, items[..count])
      && (p.setup.solo && ok ==> forall id | id in s.rows && s.rows[id].Active() :: upTo < s.rows[id].expiresAt)
      && (p.calm ==> UntouchedExcept(listed.rows, s.rows, items[..count]))
    }

    // SweepExpired. listed is the state the expired rows were read in.
    method SweepLocked(me: Actor)
      returns (count: nat, ok: bool, ghost items: seq<Item>, ghost upTo: int, ghost listed: State, ghost acts: seq<Event>)
      requires p.Valid() && p.st.Holds(me)
      modifies p
      ensures p.Valid() && p.st.Holds(me) && old(p.log) <= p.log && Mine(p.log, me) == Mine(old(p.log), me) + acts
      ensures SweepExplains(p.st, listed, items, upTo, count, ok, acts) && old(p.st).now <= upTo
      ensures Visited(p.origin, p.log, |old(p.log)|, listed) && RowsKept(old(p.st), listed)
      ensures p.calm ==> listed.rows == old(p.st).rows
      ensures p.faults == old(p.faults) + (if ok then 0 else 1)
    {
      count, ok, items, acts := 0, false, [], [];
      var list, now := ListDue(me);
      upTo := now;
      listed := p.st;
      ghost var l := p.log;
      VisitedNow(p.origin, l, |old(p.log)|);
      if list.None? { return; }
      items := list.value;
      count, ok, acts := SweepListed(me, list.value, now, listed);
      VisitedStays(p.origin, l, p.log, |old(p.log)|, |old(p.log)|, listed);
    }

    // The expired rows, after a look at the clock.
    method ListDue(me: Actor) returns (list: Option<seq<Item>>, now: int)
      requires p.Valid() && p.st.Holds(me)
      modifies p
      ensures p.Valid() && p.st.Holds(me) && old(p.log) <= p.log && Mine(p.log, me) == Mine(old(p.log), me)
      ensures list.Some? ==> ListsExactly(p.st, list.value, ExpiredIds(p.st, now)) && SoonestFirst(list.value)
      ensures RowsKept(old(p.st), p.st) && old(p.st).now <= now <= p.st.now
      ensures p.setup.solo ==> p.st.swept <= now
      ensures p.calm ==> p.st.rows == old(p.st).rows
      ensures p.faults == old(p.faults) + (if list.None? then 1 else 0)
    {
      p.Sound();
      ghost var s := p.st;
      now := p.Clock(me);
      ghost var s1 := p.st;
      list := p.ListExpired(me, now);
      SteadyTransitive(p.setup, me, s, s1, p.st);
    }

    method SweepListed(me: Actor, items: seq<Item>, upTo: int, ghost listed: State)
      returns (count: nat, ok: bool, ghost acts: seq<Event>)
      requires p.Valid() && p.st.Holds(me) && p.st == listed && upTo <= listed.now
      requires ListsExactly(listed, items, ExpiredIds(listed, upTo)) && SoonestFirst(items)
      requires p.setup.solo ==> listed.swept <= upTo
      modifies p
      ensures p.Valid() && p.st.Holds(me) && old(p.log) <= p.log && Mine(p.log, me) == Mine(old(p.log), me) + acts
      ensures SweepExplains(p.st, listed, items, upTo, count, ok, acts)
      ensures p.faults == old(p.faults) + (if ok then 0 else 1)
    {
      count, acts := SweepItems(me, items, upTo, listed);
      ok := count == |items|;
      if ok {
        assert items[..count] == items;
        EndSweep(me, upTo, listed, items);
        acts := acts + [SweepEnd(upTo)];
      }
    }

    method SweepExpired(me: Actor)
      returns (count: nat, ok: bool, ghost items: seq<Item>, ghost upTo: int, ghost listed: State, ghost acts: seq<Event>,
               ghost waited: bool, ghost at: State, ghost end: State)
      requires p.Valid() && me.Worker?
      modifies p
      ensures p.Valid()
      ensures waited ==> count == 0 && !ok && p.Blocked(me) && old(p.log) <= p.log && Mine(p.log, me) == Mine(old(p.log), me)
      ensures !waited ==>
                && Answered(me, acts, at, end) && SweepExplains(at, listed, items, upTo, count, ok, acts)
                && old(p.st).now <= upTo && VisitedInTurn(p.origin, p.log, |old(p.log)|, listed, at)
      ensures !waited && p.calm ==> listed.rows == old(p.st).rows
      ensures p.faults == old(p.faults) + (if waited || ok then 0 else 1)
    {
      count, ok, items, acts, upTo, listed, waited, at, end := 0, false, [], [], 0, p.st, true, p.st, p.st;
      var got := Enter(me);
      if !got { return; }
      waited := false;
      ghost var l := p.log;
      count, ok, items, upTo, listed, acts := SweepLocked(me);
      ghost var l1 := p.log;
      InTurnNow(p.origin, l1, |l|, listed);
      at, end := Leave(me, |old(p.log)|);
      InTurnStays(p.origin, l1, p.log, |l|, |old(p.log)|, listed, at);
      Bracketed(Mine(old(p.log), me), acts);
    }
  }
}

// The unlocked actor: administrators terminate instances without the services' mutex.
module AdminService {
  import opened Options
  import opened Protocol
  import opened Safety
  import opened Interference
  import opened World

  // TerminateInstance: a row read as active has its container stopped first; one read as terminated
  // is terminated again, which is safe because its container is gone already.
  method TerminateInstance(p: Platform, me: Actor, id: nat) returns (ok: bool, ghost acts: seq<Event>, ghost at: int)
    requires p.Valid() && me.Admin?
    modifies p
    ensures p.Valid() && old(p.log) <= p.log && Mine(p.log, me) == Mine(old(p.log), me) + acts
    ensures ok ==> id in p.st.rows && !p.st.rows[id].Active() && p.st.rows[id].container !in p.st.alive
    ensures ok ==> acts == [Retire(id, at)] || acts == [Stop(id, ByAdmin), Retire(id, at)]
    ensures ok ==> old(p.st).now <= at <= p.st.now
    ensures !ok ==> acts == [] || acts == [Stop(id, ByAdmin)]
    ensures ok && id in old(p.st).rows && old(p.st).rows[id].Active() && p.calm ==> |acts| == 2
    ensures !ok && p.faults == old(p.faults) ==> id !in old(p.st).rows && acts == []
    ensures ok ==> p.faults == old(p.faults)
  {
    acts, at, ok := [], 0, false;
    var stopped;
    stopped, acts := StopUnlessTerminated(p, me, id);
    if !stopped { return; }
    ok, at := TerminateRow(p, me, id);
    if ok { acts := acts + [Retire(id, at)]; }
  }

  method StopUnlessTerminated(p: Platform, me: Actor, id: nat) returns (ok: bool, ghost acts: seq<Event>)
    requires p.Valid() && me.Admin?
    modifies p
    ensures p.Valid() && old(p.log) <= p.log && Mine(p.log, me) == Mine(old(p.log), me) + acts
    ensures ok ==> id in p.st.rows && p.st.rows[id].container in p.st.issued && p.st.rows[id].container !in p.st.alive
    ensures acts == [] || acts == [Stop(id, ByAdmin)]
    ensures !ok ==> acts == []
    ensures old(p.st).now <= p.st.now
    ensures ok && id in old(p.st).rows && old(p.st).rows[id].Active() && p.calm ==> acts == [Stop(id, ByAdmin)]
    ensures !ok && p.faults == old(p.faults) ==> id !in old(p.st).rows
    ensures if ok then p.faults == old(p.faults) else p.faults >= old(p.faults)
  {
    acts := [];
    var current := p.RowById(me, id);
    p.Sound();
    if !current.Found? { return false, acts; }
    if current.row.status == Terminated { return true, acts; }
    ghost var mid;
    ok, mid := p.StopContainer(me, current.row.container, Stop(id, ByAdmin));
    if ok { acts := [Stop(id, ByAdmin)]; }
  }

  method TerminateRow(p: Platform, me: Actor, id: nat) returns (ok: bool, ghost at: int)
    requires p.Valid() && me.Admin? && id in p.st.rows
    requires p.st.rows[id].container in p.st.issued && p.st.rows[id].container !in p.st.alive
    modifies p
    ensures p.Valid() && old(p.log) <= p.log && Mine(p.log, me) == Mine(old(p.log), me) + (if ok then [Retire(id, at)] else [])
    ensures ok ==> id in p.st.rows && !p.st.rows[id].Active() && p.st.rows[id].container !in p.st.alive
    ensures old(p.st).now <= at <= p.st.now
    ensures p.faults == old(p.faults) + (if ok then 0 else 1)
  {
    var now := p.Clock(me);
    at := now;
    ghost var mid;
    ok, mid := p.RetireRow(me, id, now);
  }
}
