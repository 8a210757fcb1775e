// The dynamic-instance lifecycle as an automaton.
//
// Two stores are kept in step: the instance table and the container engine. Request threads change
// them under a per-process mutex, administrators change them without it, and nature lets time pass
// and containers die. One event is one atomic statement or engine call; Enabled says when the code
// may issue it and Apply what it does. World.dfy and Service.dfy prove that the code issues enabled
// events only; this file and Safety.dfy prove what every run of enabled events keeps.

module Options {
  datatype Option<+T> = None | Some(value: T)
}

module Protocol {
  import opened Options

  type Cid = nat

  datatype Actor = Worker(process: nat, thread: nat) | Admin(call: nat) | Nature

  datatype Status = Creating | Running | Terminated

  // A row of challenge_instances.
  datatype Row = Row(
    challenge: string, user: int, status: Status, port: int, renewals: nat,
    startedAt: int, expiresAt: int, endedAt: Option<int>, container: Cid)
  {
    // The status filter shared by every query: status IN ('creating', 'running').
    predicate Active() { status != Terminated }

    predicate Owned(challenge: string, user: int) {
      this.challenge == challenge && this.user == user
    }
  }

  // What the engine recorded about a container when it was launched: its labels and published
  // port. The launching thread is kept to tell containers of different requests apart.
  datatype Container = Container(challenge: string, user: int, port: int, launcher: Actor)

  datatype Config = Config(
    id: string, configId: int, dynamic: bool, image: string, containerPort: int,
    ttl: int, maxRenewals: int, maxActive: int, cooldown: int)

  // Everything fixed during a run. solo says that one service process runs.
  datatype Setup = Setup(
    refs: map<string, string>, configs: map<string, Config>, portMin: int, portMax: int, solo: bool)
  {
    predicate Pooled() { 0 < portMin <= portMax }

    predicate Knows(challenge: string) {
      challenge in configs && configs[challenge].id == challenge
    }
  }

  datatype State = State(
    rows: map<nat, Row>, nextRow: nat,
    issued: map<Cid, Container>, alive: set<Cid>,
    holder: map<nat, nat>, now: int,
    swept: int)   // the clock reading of the last completed sweep
  {
    predicate Holds(who: Actor) {
      who.Worker? && who.process in holder && holder[who.process] == who.thread
    }

    predicate ActiveRow(id: nat) { id in rows && rows[id].Active() }

    function ActiveOf(challenge: string): set<nat> {
      set id | id in rows && rows[id].Active() && rows[id].challenge == challenge
    }

    function ActiveIds(): set<nat> {
      set id | id in rows && rows[id].Active()
    }
  }

  datatype Reason = ByOwner(user: int) | ByExpiry | ByAdmin

  datatype Event =
    | Lock
    | Unlock
    | Tick(to: int)
    | Vanish(lost: Cid)
    | Launch(cid: Cid, spec: Container)
    | Busy(port: int)                    // the engine refused to bind the port
    | Abort                              // the engine failed to start a container
    | Stop(target: nat, why: Reason)
    | Reap(orphan: Cid)
    | Insert(id: nat, row: Row)
    | Extend(id: nat, at: int, until: int)
    | Retire(id: nat, at: int)
    | SweepEnd(upTo: int)

  function Max(a: int, b: int): int { if a < b then b else a }

  // Conditions a request checks before it inserts its row. They are promised for one process only.
  predicate Admissible(k: Setup, s: State, row: Row)
    requires k.Knows(row.challenge)
  {
    var cfg := k.configs[row.challenge];
    && s.swept <= row.startedAt <= s.now
    && (cfg.maxActive > 0 ==> |s.ActiveOf(row.challenge)| < cfg.maxActive)
    && (cfg.cooldown > 0 ==> forall id | id in s.rows && s.rows[id].Owned(row.challenge, row.user) ::
          s.rows[id].startedAt + cfg.cooldown <= row.startedAt)
    && (k.Pooled() ==>
          && k.portMin <= row.port <= k.portMax
          && forall id | id in s.rows && s.rows[id].Active() :: s.rows[id].port != row.port)
  }

  predicate FreshContainer(s: State, who: Actor, row: Row) {
    && row.container in s.issued
    && s.issued[row.container] == Container(row.challenge, row.user, row.port, who)
    && forall id | id in s.rows :: s.rows[id].container != row.container
  }

  predicate NewRow(k: Setup, row: Row) {
    && k.Knows(row.challenge)
    && row.status == Running && row.renewals == 0 && row.endedAt == None
    && row.expiresAt == row.startedAt + k.configs[row.challenge].ttl
  }

  // The partial unique index ux_challenge_instances_running_user_challenge.
  predicate KeyFree(s: State, challenge: string, user: int) {
    forall id | id in s.rows && s.rows[id].Active() :: !s.rows[id].Owned(challenge, user)
  }

  predicate Unclaimed(s: State, c: Cid) {
    forall id | id in s.rows && s.rows[id].Active() :: s.rows[id].container != c
  }

  predicate Enabled(k: Setup, s: State, who: Actor, e: Event) {
    match e
    case Lock => who.Worker? && who.process !in s.holder && (k.solo ==> who.process == 0)
    case Unlock => s.Holds(who)
    case Tick(to) => who.Nature? && s.now <= to
    case Vanish(lost) => who.Nature?
    case Launch(cid, spec) => s.Holds(who) && cid !in s.issued && spec.launcher == who
    case Busy(port) => s.Holds(who)
    case Abort => s.Holds(who)
    case Stop(target, why) =>
      && target in s.rows
      && match why {
         case ByAdmin => who.Admin?
         case ByOwner(user) => s.Holds(who) && s.rows[target].user == user
         case ByExpiry => s.Holds(who) && (k.solo ==> s.rows[target].expiresAt <= s.now)
         }
    case Reap(orphan) => s.Holds(who) && (k.solo ==> Unclaimed(s, orphan))
    case Insert(id, row) =>
      && s.Holds(who) && id == s.nextRow
      && NewRow(k, row) && FreshContainer(s, who, row) && KeyFree(s, row.challenge, row.user)
      && (k.solo ==> Admissible(k, s, row))
    case Extend(id, at, until) =>
      && s.Holds(who) && s.ActiveRow(id) && k.Knows(s.rows[id].challenge)
      && (k.solo ==>
            var cfg := k.configs[s.rows[id].challenge];
            && s.rows[id].renewals < cfg.maxRenewals
            && s.swept <= at <= s.now
            && until == Max(s.rows[id].expiresAt, at) + cfg.ttl)
    case Retire(id, at) =>
      && (s.Holds(who) || who.Admin?)
      && id in s.rows && s.rows[id].container !in s.alive
    case SweepEnd(upTo) =>
      && s.Holds(who)
      && (k.solo ==>
            && s.swept <= upTo <= s.now
            && forall id | id in s.rows && s.rows[id].Active() :: upTo < s.rows[id].expiresAt)
  }

  function Retired(row: Row, at: int): Row {
    row.(status := Terminated, endedAt := Some(at))
  }

  function Apply(s: State, who: Actor, e: Event): State {
    match e
    case Lock => if who.Worker? then s.(holder := s.holder[who.process := who.thread]) else s
    case Unlock => if who.Worker? then s.(holder := s.holder - {who.process}) else s
    case Tick(to) => s.(now := to)
    case Vanish(lost) => s.(alive := s.alive - {lost})
    case Launch(cid, spec) => s.(issued := s.issued[cid := spec], alive := s.alive + {cid})
    case Busy(_) => s
    case Abort => s
    case Stop(target, _) =>
      if target in s.rows then s.(alive := s.alive - {s.rows[target].container}) else s
    case Reap(orphan) => s.(alive := s.alive - {orphan})
    case Insert(id, row) => s.(rows := s.rows[id := row], nextRow := id + 1)
    case Extend(id, _, until) =>
      if id in s.rows
      then s.(rows := s.rows[id := s.rows[id].(renewals := s.rows[id].renewals + 1, expiresAt := until)])
      else s
    case Retire(id, at) =>
      if id in s.rows then s.(rows := s.rows[id := Retired(s.rows[id], at)]) else s
    case SweepEnd(upTo) => s.(swept := upTo)
  }

  // A run: every entry was enabled where it happened and records the state it led to.
  datatype Entry = Entry(who: Actor, event: Event, after: State)

  function StateAt(origin: State, log: seq<Entry>, i: nat): State
    requires i <= |log|
  {
    if i == 0 then origin else log[i - 1].after
  }

  predicate StepAt(k: Setup, origin: State, log: seq<Entry>, i: nat)
    requires i < |log|
  {
    var s := StateAt(origin, log, i);
    Enabled(k, s, log[i].who, log[i].event) && log[i].after == Apply(s, log[i].who, log[i].event)
  }

  ghost predicate IsRun(k: Setup, origin: State, log: seq<Entry>) {
    forall i: nat | i < |log| :: StepAt(k, origin, log, i)
  }

  // A state the run was in after its first n entries or later.
  ghost predicate Visited(origin: State, log: seq<Entry>, n: nat, s: State) {
    exists i: nat :: n <= i <= |log| && StateAt(origin, log, i) == s
  }

  // Two such states, s no later than t.
  ghost predicate VisitedInTurn(origin: State, log: seq<Entry>, n: nat, s: State, t: State) {
    exists i: nat :: n <= i <= |log| && StateAt(origin, log, i) == s && Visited(origin, log, i, t)
  }

  lemma VisitedStays(origin: State, log: seq<Entry>, longer: seq<Entry>, n: nat, m: nat, s: State)
    requires Visited(origin, log, n, s) && log <= longer && m <= n
    ensures Visited(origin, longer, m, s)
  {
    var i: nat :| n <= i <= |log| && StateAt(origin, log, i) == s;
    assert StateAt(origin, longer, i) == s;
  }

  lemma VisitedNow(origin: State, log: seq<Entry>, n: nat)
    requires n <= |log|
    ensures Visited(origin, log, n, StateAt(origin, log, |log|))
  {
  }

  // The state a shorter log ended in, and a state after it.
  lemma InTurn(origin: State, log: seq<Entry>, longer: seq<Entry>, n: nat, t: State)
    requires log <= longer && n <= |log| && Visited(origin, longer, |log|, t)
    ensures VisitedInTurn(origin, longer, n, StateAt(origin, log, |log|), t)
  {
    assert StateAt(origin, longer, |log|) == StateAt(origin, log, |log|);
  }

  lemma InTurnNow(origin: State, log: seq<Entry>, n: nat, s: State)
    requires Visited(origin, log, n, s)
    ensures VisitedInTurn(origin, log, n, s, StateAt(origin, log, |log|))
  {
    var i: nat :| n <= i <= |log| && StateAt(origin, log, i) == s;
    VisitedNow(origin, log, i);
  }

  lemma InTurnStays(origin: State, log: seq<Entry>, longer: seq<Entry>, n: nat, m: nat, s: State, t: State)
    requires VisitedInTurn(origin, log, n, s, t) && log <= longer && m <= n
    ensures VisitedInTurn(origin, longer, m, s, t)
  {
    var i: nat :| n <= i <= |log| && StateAt(origin, log, i) == s && Visited(origin, log, i, t);
    VisitedStays(origin, log, longer, i, i, t);
    assert StateAt(origin, longer, i) == s;
  }

  // The events one actor issued, in order.
  function Mine(log: seq<Entry>, me: Actor): seq<Event> {
    if log == [] then []
    else
      var rest := Mine(log[..|log| - 1], me);
      var last := log[|log| - 1];
      if last.who == me then rest + [last.event] else rest
  }

  lemma Joined<T>(a: seq<T>, b: seq<T>, c: seq<T>)
    ensures (a + b) + c == a + (b + c)
  {
  }

  lemma Bracketed(before: seq<Event>, acts: seq<Event>)
    ensures before + [Lock] + acts + [Unlock] == before + ([Lock] + acts + [Unlock])
  {
  }

  lemma MineExtend(log: seq<Entry>, entry: Entry, me: Actor)
    ensures Mine(log + [entry], me) == Mine(log, me) + (if entry.who == me then [entry.event] else [])
  {
    assert (log + [entry])[..|log|] == log;
  }

  lemma RunExtend(k: Setup, origin: State, log: seq<Entry>, who: Actor, e: Event)
    requires IsRun(k, origin, log)
    requires Enabled(k, StateAt(origin, log, |log|), who, e)
    ensures
      var s := StateAt(origin, log, |log|);
      IsRun(k, origin, log + [Entry(who, e, Apply(s, who, e))])
  {
    var s := StateAt(origin, log, |log|);
    var longer := log + [Entry(who, e, Apply(s, who, e))];
    forall i: nat | i < |longer| ensures StepAt(k, origin, longer, i) {
      assert StateAt(origin, longer, i) == StateAt(origin, log, i);
      if i < |log| {
        assert StepAt(k, origin, log, i);
      }
    }
  }
}
