// The shared world a request sees: the instance table, the container engine, the mutex and the
// clock. Every call lets any number of events of other actors happen first and then takes one
// atomic step of its own, so a request observes every interleaving the automaton allows.

module Interference {
  import opened Options
  import opened Sets
  import opened Protocol
  import opened Safety

  // ---- What the other actors can do to one's view ----------------------------------------------

  predicate SameInstance(a: Row, b: Row) {
    && a.challenge == b.challenge && a.user == b.user && a.port == b.port
    && a.startedAt == b.startedAt && a.container == b.container
  }

  // From s to t no row and no container is forgotten, and none comes back.
  predicate Onward(s: State, t: State) {
    && (forall id | id in s.rows :: id in t.rows && SameInstance(s.rows[id], t.rows[id])
                                    && (t.rows[id].Active() ==> s.rows[id].Active()))
    && (forall c | c in s.issued :: c in t.issued && t.issued[c] == s.issued[c])
    && (forall c | c in s.issued && c in t.alive :: c in s.alive)
  }

  // Whatever other actors did between s and t.
  ghost predicate Later(me: Actor, s: State, t: State) {
    && s.now <= t.now && Onward(s, t)
    && (forall id | id in t.rows && id !in s.rows ::
          t.rows[id].container in t.issued && t.issued[t.rows[id].container].launcher != me)
    && (s.Holds(me) ==> t.Holds(me))
  }

  predicate Settled(a: Row, b: Row) {
    b == a || (b.endedAt.Some? && b == Retired(a, b.endedAt.value))
  }

  // The table while the only mutex is held: rows are at most retired.
  ghost predicate RowsHeld(s: State, t: State) {
    && s.now <= t.now
    && t.rows.Keys == s.rows.Keys && t.nextRow == s.nextRow && t.swept == s.swept
    && forall id | id in s.rows :: Settled(s.rows[id], t.rows[id])
  }

  ghost predicate Guarded(s: State, t: State) {
    RowsHeld(s, t) && t.issued == s.issued && t.alive <= s.alive
  }

  lemma OtherLater(k: Setup, s: State, me: Actor, who: Actor, e: Event)
    requires Core(k, s) && Enabled(k, s, who, e) && who != me
    ensures Later(me, s, Apply(s, who, e))
  {
    OtherContainers(k, s, me, who, e);
    RowsStay(k, s, who, e);
  }

  lemma RowsStay(k: Setup, s: State, who: Actor, e: Event)
    requires RowsTracked(k, s) && Enabled(k, s, who, e)
    ensures
      var t := Apply(s, who, e);
      forall id | id in s.rows :: id in t.rows && SameInstance(s.rows[id], t.rows[id])
                                  && (t.rows[id].Active() ==> s.rows[id].Active())
  {
    match e
    case Insert(id, _) => assert id !in s.rows;
    case Extend(_, _, _) =>
    case Retire(_, _) =>
    case _ => assert Apply(s, who, e).rows == s.rows;
  }

  lemma OtherContainers(k: Setup, s: State, me: Actor, who: Actor, e: Event)
    requires Core(k, s) && Enabled(k, s, who, e) && who != me
    ensures
      var t := Apply(s, who, e);
      && (forall c | c in s.issued :: c in t.issued && t.issued[c] == s.issued[c])
      && (forall c | c in s.issued && c in t.alive :: c in s.alive)
      && (forall id | id in t.rows && id !in s.rows ::
            t.rows[id].container in t.issued && t.issued[t.rows[id].container].launcher != me)
  {
  }

  lemma OtherGuarded(k: Setup, s: State, me: Actor, who: Actor, e: Event)
    requires OneHolder(s) && Enabled(k, s, who, e) && who != me && s.Holds(me)
    ensures Guarded(s, Apply(s, who, e))
  {
    assert who.Worker? ==> !s.Holds(who) && (k.solo ==> !e.Lock?);
  }

  lemma LaterTransitive(me: Actor, s: State, t: State, u: State)
    requires Later(me, s, t) && Later(me, t, u)
    ensures Later(me, s, u)
  {
  }

  lemma GuardedTransitive(s: State, t: State, u: State)
    requires Guarded(s, t) && Guarded(t, u)
    ensures Guarded(s, u)
  {
  }

  lemma RowsHeldTransitive(s: State, t: State, u: State)
    requires RowsHeld(s, t) && RowsHeld(t, u)
    ensures RowsHeld(s, u)
  {
  }

  // Neither the others nor one's own launches, stops and terminations disturb the table one has
  // read: rows are at most retired.
  ghost predicate Steady(k: Setup, me: Actor, s: State, t: State) {
    Later(me, s, t) && (k.solo && s.Holds(me) ==> RowsHeld(s, t))
  }

  lemma SteadyTransitive(k: Setup, me: Actor, s: State, t: State, u: State)
    requires Steady(k, me, s, t) && Steady(k, me, t, u)
    ensures Steady(k, me, s, u)
  {
    LaterTransitive(me, s, t, u);
    if k.solo && s.Holds(me) {
      RowsHeldTransitive(s, t, u);
    }
  }

  predicate OwnKind(e: Event) {
    e.Launch? || e.Busy? || e.Abort? || e.Reap? || e.Stop? || e.Retire?
  }

  lemma OwnStep(k: Setup, me: Actor, s: State, mid: State, e: Event)
    requires Steady(k, me, s, mid) && Enabled(k, mid, me, e) && OwnKind(e)
    ensures Steady(k, me, s, Apply(mid, me, e))
  {
    OwnEvent(k, me, mid, e);
    SteadyTransitive(k, me, s, mid, Apply(mid, me, e));
  }

  lemma OwnEvent(k: Setup, me: Actor, s: State, e: Event)
    requires Enabled(k, s, me, e) && OwnKind(e)
    ensures Steady(k, me, s, Apply(s, me, e))
  {
    if e.Retire? {
      assert Settled(s.rows[e.id], Retired(s.rows[e.id], e.at));
    }
  }

  // ---- What a request checked stays true until it acts -----------------------------------------

  lemma FreshStays(me: Actor, s: State, t: State, row: Row)
    requires Later(me, s, t) && FreshContainer(s, me, row)
    ensures FreshContainer(t, me, row)
  {
  }

  lemma ActiveShrinks(s: State, t: State, challenge: string)
    requires RowsHeld(s, t)
    ensures t.ActiveOf(challenge) <= s.ActiveOf(challenge) && |t.ActiveOf(challenge)| <= |s.ActiveOf(challenge)|
  {
    SubsetSize(t.ActiveOf(challenge), s.ActiveOf(challenge));
  }

  lemma AdmissibleStays(k: Setup, s: State, t: State, row: Row)
    requires RowsHeld(s, t) && k.Knows(row.challenge) && Admissible(k, s, row)
    ensures Admissible(k, t, row)
  {
    ActiveShrinks(s, t, row.challenge);
  }
}

module World {
  import opened Options
  import opened Protocol
  import opened Safety
  import opened Interference

  datatype Lookup = Found(id: nat, row: Row) | Missing | Failed

  datatype StartReply = Started(cid: Cid, port: int) | PortBusy | StartFailed

  // A row as a listing returned it.
  datatype Item = Item(id: nat, row: Row)

  // A listing entry of the engine: container id and labels.
  datatype Managed = Managed(cid: Cid, challenge: string, user: int)

  datatype ConfigReply = Configured(cfg: Config) | NoConfig | ConfigFailed

  // The published challenge a reference names, with its runtime configuration.
  function Resolve(k: Setup, ref: string): Option<Config> {
    if ref in k.refs && k.Knows(k.refs[ref]) then Some(k.configs[k.refs[ref]]) else None
  }

  predicate ListsExactly(s: State, items: seq<Item>, ids: set<nat>) {
    && ids <= s.rows.Keys
    && (forall i | 0 <= i < |items| :: items[i].id in ids && items[i].row == s.rows[items[i].id])
    && (forall id | id in ids :: Item(id, s.rows[id]) in items)
    && (forall i, j | 0 <= i < j < |items| :: items[i].id != items[j].id)
  }

  predicate SoonestFirst(items: seq<Item>) {
    forall i, j | 0 <= i < j < |items| :: items[i].row.expiresAt <= items[j].row.expiresAt
  }

  function ExpiredIds(s: State, now: int): set<nat> {
    set id | id in s.rows && s.rows[id].Active() && s.rows[id].expiresAt <= now
  }

  function ActivePorts(s: State): set<int> {
    set id | id in s.rows && s.rows[id].Active() && s.rows[id].port > 0 :: s.rows[id].port
  }

  class Platform {
    const setup: Setup
    const calm: bool            // nobody else acts; only time passes
    ghost const origin: State
    ghost var log: seq<Entry>
    ghost var faults: nat       // statements and calls that failed
    var st: State

    ghost predicate Valid()
      reads this
    {
      && IsRun(setup, origin, log)
      && st == StateAt(origin, log, |log|)
      && Inv(setup, origin)
    }

    lemma Sound()
      requires Valid()
      ensures Inv(setup, st)
    {
      InvRun(setup, origin, log, |log|);
    }

    // Every state the platform went through is safe.
    lemma EveryStateSafe(i: nat)
      requires Valid() && i <= |log|
      ensures Inv(setup, StateAt(origin, log, i))
    {
      InvRun(setup, origin, log, i);
    }

    constructor (setup: Setup, calm: bool, start: State)
      requires Inv(setup, start)
      ensures Valid() && this.setup == setup && this.calm == calm
      ensures st == start && origin == start && log == [] && faults == 0
    {
      this.setup := setup;
      this.calm := calm;
      this.origin := start;
      this.log := [];
      this.faults := 0;
      this.st := start;
    }

    // The others' events between two views of one actor.
    ghost predicate Between(me: Actor, s: State, t: State) {
      && Later(me, s, t)
      && (setup.solo && s.Holds(me) ==> Guarded(s, t))
      && (calm ==> t == s.(now := t.now))
    }

    // Since view s0 of log0, the actor issued nothing itself.
    ghost predicate Idle(me: Actor, s0: State, log0: seq<Entry>)
      reads this
    {
      Valid() && log0 <= log && Between(me, s0, st) && Mine(log, me) == Mine(log0, me)
    }

    // Since view s0 of log0, the actor issued exactly e, and issued it in state mid.
    ghost predicate Did(me: Actor, e: Event, mid: State, s0: State, log0: seq<Entry>)
      reads this
    {
      && Valid() && log0 <= log && Between(me, s0, mid)
      && Enabled(setup, mid, me, e) && st == Apply(mid, me, e)
      && Mine(log, me) == Mine(log0, me) + [e]
    }

    method Commit(who: Actor, e: Event)
      requires Valid() && Enabled(setup, st, who, e)
      modifies this
      ensures Valid() && st == Apply(old(st), who, e)
      ensures log == old(log) + [Entry(who, e, st)] && faults == old(faults)
    {
      RunExtend(setup, origin, log, who, e);
      st := Apply(st, who, e);
      log := log + [Entry(who, e, st)];
    }

    // Any finite number of events of other actors.
    method Others(me: Actor)
      requires Valid()
      modifies this
      ensures Idle(me, old(st), old(log)) && faults == old(faults)
    {
      var steps: nat := *;
      while steps > 0
        invariant Idle(me, old(st), old(log)) && faults == old(faults)
      {
        steps := steps - 1;
        var who: Actor := *;
        var e: Event := *;
        if who != me && Enabled(setup, st, who, e) && (calm ==> e.Tick?) {
          ghost var s, l := st, log;
          Sound();
          OtherLater(setup, st, me, who, e);
          if setup.solo && st.Holds(me) {
            OtherGuarded(setup, st, me, who, e);
          }
          Commit(who, e);
          MineExtend(l, Entry(who, e, st), me);
          LaterTransitive(me, old(st), s, st);
          if setup.solo && old(st).Holds(me) {
            GuardedTransitive(old(st), s, st);
          }
        }
      }
    }

    // One own step after the others had their turn.
    method Act(me: Actor, e: Event)
      requires Valid() && Enabled(setup, st, me, e)
      modifies this
      ensures Did(me, e, old(st), old(st), old(log)) && faults == old(faults)
    {
      ghost var l := log;
      Commit(me, e);
      MineExtend(l, Entry(me, e, st), me);
    }

    // ---- The mutex and the clock ---------------------------------------------------------------

    // A thread of the own process has the mutex. With one process there are no others.
    ghost predicate Blocked(me: Actor)
      requires me.Worker?
      reads this
    {
      me.process in st.holder || (setup.solo && me.process != 0)
    }

    // sync.Mutex.Lock; a thread waits only while another has the mutex.
    method Acquire(me: Actor) returns (got: bool, ghost mid: State)
      requires Valid() && me.Worker?
      modifies this
      ensures got ==> Did(me, Lock, mid, old(st), old(log))
      ensures !got ==> Idle(me, old(st), old(log)) && Blocked(me)
      ensures faults == old(faults)
    {
      Others(me);
      mid := st;
      got := me.process !in st.holder && (setup.solo ==> me.process == 0);
      if got {
        Act(me, Lock);
      }
    }

    method Release(me: Actor) returns (ghost mid: State)
      requires Valid() && st.Holds(me)
      modifies this
      ensures Did(me, Unlock, mid, old(st), old(log)) && faults == old(faults)
    {
      Others(me);
      mid := st;
      Act(me, Unlock);
    }

    method Clock(me: Actor) returns (now: int)
      requires Valid()
      modifies this
      ensures Idle(me, old(st), old(log)) && now == st.now && faults == old(faults)
    {
      Others(me);
      now := st.now;
    }

    method ChallengeConfig(me: Actor, ref: string) returns (r: ConfigReply)
      requires Valid()
      modifies this
      ensures Idle(me, old(st), old(log))
      ensures r.Configured? ==> Resolve(setup, ref) == Some(r.cfg)
      ensures r.NoConfig? ==> Resolve(setup, ref) == None
      ensures r.Configured? ==> ref in setup.refs && setup.Knows(setup.refs[ref]) && r.cfg == setup.configs[setup.refs[ref]]
      ensures r.NoConfig? ==> ref !in setup.refs || !setup.Knows(setup.refs[ref])
      ensures faults == old(faults) + (if r.ConfigFailed? then 1 else 0)
    {
      Others(me);
      var fails: bool := *;
      faults := if fails then faults + 1 else faults;
      r := if fails then ConfigFailed else match Resolve(setup, ref) case Some(cfg) => Configured(cfg) case None => NoConfig;
    }

    // ---- The instance table --------------------------------------------------------------------

    method ActiveInstance(me: Actor, user: int, challenge: string) returns (r: Lookup)
      requires Valid()
      modifies this
      ensures Idle(me, old(st), old(log))
      ensures r.Found? ==> st.ActiveRow(r.id) && st.rows[r.id] == r.row && r.row.Owned(challenge, user)
      ensures r.Found? ==> r.row.status in {Creating, Running} && r.row.challenge == challenge && r.row.user == user
      ensures r.Missing? ==> KeyFree(st, challenge, user)
      ensures r.Missing? ==> forall id | id in st.rows && st.rows[id].status in {Creating, Running} ::
                               st.rows[id].challenge != challenge || st.rows[id].user != user
      ensures faults == old(faults) + (if r.Failed? then 1 else 0)
    {
      Others(me);
      var fails: bool := *;
      faults := if fails then faults + 1 else faults;
      if fails {
        r := Failed;
      } else if id :| id in st.rows && st.rows[id].Active() && st.rows[id].Owned(challenge, user) {
        r := Found(id, st.rows[id]);
      } else {
        r := Missing;
      }
    }

    // The administrators' lookup by row id, of any status.
    method RowById(me: Actor, id: nat) returns (r: Lookup)
      requires Valid()
      modifies this
      ensures Idle(me, old(st), old(log))
      ensures r.Found? ==> r.id == id && id in st.rows && st.rows[id] == r.row
      ensures r.Missing? ==> id !in st.rows
      ensures faults == old(faults) + (if r.Failed? then 1 else 0)
    {
      Others(me);
      var fails: bool := *;
      faults := if fails then faults + 1 else faults;
      r := if fails then Failed else if id in st.rows then Found(id, st.rows[id]) else Missing;
    }

    method CountActive(me: Actor, challenge: string) returns (count: Option<nat>)
      requires Valid()
      modifies this
      ensures Idle(me, old(st), old(log))
      ensures count.Some? ==> count.value == |st.ActiveOf(challenge)|
      ensures forall id :: id in st.ActiveOf(challenge) <==>
                id in st.rows && st.rows[id].status in {Creating, Running} && st.rows[id].challenge == challenge
      ensures faults == old(faults) + (if count.None? then 1 else 0)
    {
      Others(me);
      var fails: bool := *;
      faults := if fails then faults + 1 else faults;
      count := if fails then None else Some(|st.ActiveOf(challenge)|);
    }

    // ORDER BY started_at DESC, id DESC LIMIT 1, over rows of every status.
    method LatestInstance(me: Actor, user: int, challenge: string) returns (r: Lookup)
      requires Valid()
      modifies this
      ensures Idle(me, old(st), old(log))
      ensures r.Found? ==> r.id in st.rows && st.rows[r.id] == r.row && r.row.Owned(challenge, user)
      ensures r.Found? ==> forall id | id in st.rows && st.rows[id].Owned(challenge, user) ::
                             st.rows[id].startedAt < r.row.startedAt
                             || (st.rows[id].startedAt == r.row.startedAt && id <= r.id)
      ensures r.Missing? ==> forall id | id in st.rows :: !st.rows[id].Owned(challenge, user)
      ensures faults == old(faults) + (if r.Failed? then 1 else 0)
    {
      Others(me);
      var fails: bool := *;
      faults := if fails then faults + 1 else faults;
      if fails { return Failed; }
      r := Missing;
      var left := st.rows.Keys;
      while left != {}
        invariant left <= st.rows.Keys
        invariant r != Failed
        invariant r.Found? ==> r.id in st.rows - left && st.rows[r.id] == r.row && r.row.Owned(challenge, user)
        invariant r.Found? ==> forall id | id in st.rows - left && st.rows[id].Owned(challenge, user) ::
                                 st.rows[id].startedAt < r.row.startedAt
                                 || (st.rows[id].startedAt == r.row.startedAt && id <= r.id)
        invariant r.Missing? ==> forall id | id in st.rows - left :: !st.rows[id].Owned(challenge, user)
      {
        var id :| id in left;
        left := left - {id};
        var row := st.rows[id];
        if row.Owned(challenge, user)
           && (r.Missing? || r.row.startedAt < row.startedAt || (r.row.startedAt == row.startedAt && r.id < id))
        {
          r := Found(id, row);
        }
      }
    }

    // WHERE status IN ('creating', 'running') ORDER BY id ASC.
    method ListActive(me: Actor) returns (items: Option<seq<Item>>)
      requires Valid()
      modifies this
      ensures Idle(me, old(st), old(log))
      ensures items.Some? ==> ListsExactly(st, items.value, st.ActiveIds())
      ensures faults == old(faults) + (if items.None? then 1 else 0)
    {
      Others(me);
      var fails: bool := *;
      faults := if fails then faults + 1 else faults;
      if fails { return None; }
      Sound();
      var list := CollectActive(setup, st);
      items := Some(list);
    }

    method ListActivePorts(me: Actor) returns (ports: Option<set<int>>)
      requires Valid()
      modifies this
      ensures Idle(me, old(st), old(log))
      ensures ports.Some? ==> ports.value == ActivePorts(st)
      ensures ports.Some? ==> forall port ::
                port in ports.value <==> port > 0 && exists id :: st.ActiveRow(id) && st.rows[id].port == port
      ensures faults == old(faults) + (if ports.None? then 1 else 0)
    {
      Others(me);
      var fails: bool := *;
      faults := if fails then faults + 1 else faults;
      ports := if fails then None else Some(ActivePorts(st));
    }

    // WHERE status IN ('creating', 'running') AND expires_at <= $1 ORDER BY expires_at ASC.
    method ListExpired(me: Actor, now: int) returns (items: Option<seq<Item>>)
      requires Valid()
      modifies this
      ensures Idle(me, old(st), old(log))
      ensures items.Some? ==> ListsExactly(st, items.value, ExpiredIds(st, now)) && SoonestFirst(items.value)
      ensures items.Some? ==> forall id | id in st.rows ::
                Item(id, st.rows[id]) in items.value <==> st.rows[id].Active() && st.rows[id].expiresAt <= now
      ensures faults == old(faults) + (if items.None? then 1 else 0)
    {
      Others(me);
      var fails: bool := *;
      faults := if fails then faults + 1 else faults;
      if fails { return None; }
      var list := SortByExpiry(st, ExpiredIds(st, now));
      items := Some(list);
    }

    // INSERT; fails for any reason, and always when the partial unique index refuses the key.
    method InsertInstance(me: Actor, row: Row) returns (id: Option<nat>, ghost mid: State)
      requires Valid() && st.Holds(me) && NewRow(setup, row) && FreshContainer(st, me, row)
      requires setup.solo ==> Admissible(setup, st, row)
      modifies this
      ensures id.Some? ==> Did(me, Insert(id.value, row), mid, old(st), old(log)) && id.value !in mid.rows
      ensures id.Some? ==> st.rows == mid.rows[id.value := row] && st.alive == mid.alive
      ensures id.None? ==> Idle(me, old(st), old(log))
      ensures id.Some? ==> faults == old(faults)
      ensures id.None? && faults == old(faults) ==> !KeyFree(st, row.challenge, row.user)
      ensures faults >= old(faults)
    {
      ghost var s := st;
      Others(me);
      mid := st;
      FreshStays(me, s, st, row);
      if setup.solo { AdmissibleStays(setup, s, st, row); }
      var fails: bool := *;
      faults := if fails then faults + 1 else faults;
      if fails || !KeyFree(st, row.challenge, row.user) { return None, mid; }
      id := Some(st.nextRow);
      Sound();
      Act(me, Insert(st.nextRow, row));
    }

    lemma MayRenew(me: Actor, id: nat, row: Row, at: int, until: int)
      requires Valid() && st.Holds(me) && setup.Knows(row.challenge) && row.renewals < setup.configs[row.challenge].maxRenewals
      requires setup.solo ==> id in st.rows && Settled(row, st.rows[id]) && at == st.now
      requires until == Max(row.expiresAt, at) + setup.configs[row.challenge].ttl
      ensures setup.solo && st.ActiveRow(id) && st.rows[id] == row ==> Enabled(setup, st, me, Extend(id, at, until))
    {
      Sound();
    }

    // UPDATE ... WHERE id = $1 AND status IN ('creating', 'running').
    method RenewRow(me: Actor, id: nat, at: int, until: int) returns (r: Lookup, ghost mid: State)
      requires Valid() && st.Holds(me) && id in st.rows
      requires setup.solo && st.ActiveRow(id) ==> Enabled(setup, st, me, Extend(id, at, until))
      modifies this
      ensures r.Found? ==> Did(me, Extend(id, at, until), mid, old(st), old(log)) && r.id == id && r.row == st.rows[id]
      ensures !r.Found? ==> Idle(me, old(st), old(log)) && mid == st
      ensures Visited(origin, log, |old(log)|, mid)
      ensures r.Found? ==>
                && id in mid.rows && st.alive == mid.alive
                && st.rows == mid.rows[id := mid.rows[id].(renewals := mid.rows[id].renewals + 1, expiresAt := until)]
      ensures r.Missing? ==> !st.rows[id].Active()
      ensures faults == old(faults) + (if r.Failed? then 1 else 0)
    {
      Others(me);
      mid := st;
      ghost var l := log;
      VisitedNow(origin, l, |old(log)|);
      var fails: bool := *;
      faults := if fails then faults + 1 else faults;
      if fails { return Failed, mid; }
      if !st.rows[id].Active() { return Missing, mid; }
      Sound();
      Act(me, Extend(id, at, until));
      VisitedStays(origin, l, log, |old(log)|, |old(log)|, mid);
      r := Found(id, st.rows[id]);
    }

    // UPDATE ... SET status = 'terminated' WHERE id = $1; no status guard.
    method RetireRow(me: Actor, id: nat, at: int) returns (ok: bool, ghost mid: State)
      requires Valid() && (st.Holds(me) || me.Admin?)
      requires id in st.rows && st.rows[id].container in st.issued && st.rows[id].container !in st.alive
      modifies this
      ensures ok ==> Did(me, Retire(id, at), mid, old(st), old(log))
      ensures ok ==>
                && id in mid.rows && st.alive == mid.alive
                && st.rows == mid.rows[id := mid.rows[id].(status := Terminated, endedAt := Some(at))]
      ensures !ok ==> Idle(me, old(st), old(log)) && mid == st
      ensures faults == old(faults) + (if !ok then 1 else 0)
    {
      Others(me);
      mid := st;
      var fails: bool := *;
      faults := if fails then faults + 1 else faults;
      ok := !fails;
      if ok {
        Sound();
        Act(me, Retire(id, at));
      }
    }

    // ---- The container engine ------------------------------------------------------------------

    // A failed start may leave its container behind: the cleanup is best effort, and none is tried
    // once the container runs. A refused port is a failure if none was asked for.
    method StartContainer(me: Actor, challenge: string, user: int, port: int)
      returns (r: StartReply, ghost acts: seq<Event>)
      requires Valid() && st.Holds(me)
      modifies this
      ensures Valid() && st.Holds(me) && Steady(setup, me, old(st), st)
      ensures old(log) <= log && Mine(log, me) == Mine(old(log), me) + acts
      ensures r.Started? ==>
                && acts == [Launch(r.cid, Container(challenge, user, r.port, me))] && (port > 0 ==> r.port == port)
                && r.cid in st.issued && r.cid in st.alive && st.issued[r.cid] == Container(challenge, user, r.port, me)
                && forall id | id in st.rows :: st.rows[id].container != r.cid
      ensures r.PortBusy? ==> acts == [Busy(port)] || (|acts| == 2 && acts[0].Launch? && acts[1] == Busy(port))
      ensures r.StartFailed? ==> acts == [Abort] || (|acts| == 2 && acts[0].Launch? && acts[1] == Abort)
      ensures faults == old(faults) + (if r.StartFailed? || (r.PortBusy? && port <= 0) then 1 else 0)
    {
      Others(me);
      acts := [];
      var outcome: StartReply := *;
      var created: bool := *;
      r := outcome;
      faults := if outcome.StartFailed? || (outcome.PortBusy? && port <= 0) then faults + 1 else faults;
      if outcome.Started? || created {
        var published: int := *;
        if outcome.Started? && port > 0 { published := port; }
        ghost var s := st;
        var cid := LaunchNew(me, Container(challenge, user, published, me));
        SteadyTransitive(setup, me, old(st), s, st);
        acts := [Launch(cid, Container(challenge, user, published, me))];
        if outcome.Started? { r := Started(cid, published); }
      }
      if !r.Started? {
        var e := if r.PortBusy? then Busy(port) else Abort;
        Note(me, e);
        Joined(Mine(old(log), me), acts, [e]);
        acts := acts + [e];
      }
    }

    // The engine refuses; nothing changes.
    method Note(me: Actor, e: Event)
      requires Valid() && st.Holds(me) && (e.Busy? || e.Abort?)
      modifies this
      ensures Valid() && st == old(st) && faults == old(faults)
      ensures old(log) <= log && Mine(log, me) == Mine(old(log), me) + [e]
    {
      Act(me, e);
    }

    // The engine runs a container under a new id.
    method LaunchNew(me: Actor, spec: Container) returns (cid: Cid)
      requires Valid() && st.Holds(me) && spec.launcher == me
      modifies this
      ensures Valid() && st.Holds(me) && Steady(setup, me, old(st), st) && faults == old(faults)
      ensures old(log) <= log && Mine(log, me) == Mine(old(log), me) + [Launch(cid, spec)]
      ensures cid in st.issued && cid in st.alive && st.issued[cid] == spec
      ensures forall id | id in st.rows :: st.rows[id].container != cid
    {
      Sound();
      FreshIdExists(st.issued.Keys);
      cid :| cid !in st.issued;
      OwnEvent(setup, me, st, Launch(cid, spec));
      Act(me, Launch(cid, spec));
    }

    // Stops the container that e names. A failed stop leaves it as it was.
    method StopContainer(me: Actor, cid: Cid, e: Event) returns (ok: bool, ghost mid: State)
      requires Valid() && Enabled(setup, st, me, e)
      requires e.Reap? || e.Stop?
      requires e.Reap? ==> e.orphan == cid
      requires e.Stop? ==> st.rows[e.target].container == cid
      modifies this
      ensures ok ==> Did(me, e, mid, old(st), old(log))
      ensures ok ==> st.alive == mid.alive - {cid} && st.rows == mid.rows && st.issued == mid.issued && st.holder == mid.holder
      ensures !ok ==> Idle(me, old(st), old(log))
      ensures faults == old(faults) + (if !ok then 1 else 0)
    {
      Others(me);
      mid := st;
      var fails: bool := *;
      faults := if fails then faults + 1 else faults;
      ok := !fails;
      if ok {
        Act(me, e);
      }
    }

    // Every container of the platform, in any order.
    method ListManaged(me: Actor) returns (items: Option<seq<Managed>>)
      requires Valid()
      modifies this
      ensures Idle(me, old(st), old(log))
      ensures items.Some? ==> ListsAlive(st, items.value)
      ensures faults == old(faults) + (if items.None? then 1 else 0)
    {
      Others(me);
      var fails: bool := *;
      faults := if fails then faults + 1 else faults;
      if fails { return None; }
      Sound();
      var list: seq<Managed> := [];
      var left := st.alive;
      while left != {}
        invariant left <= st.alive
        invariant forall i | 0 <= i < |list| :: list[i].cid in st.alive - left && list[i] == ManagedOf(st, list[i].cid)
        invariant forall c | c in st.alive - left :: ManagedOf(st, c) in list
      {
        var c :| c in left;
        left := left - {c};
        list := list + [ManagedOf(st, c)];
      }
      items := Some(list);
    }

    method ContainerExists(me: Actor, cid: Cid) returns (r: Option<bool>)
      requires Valid()
      modifies this
      ensures Idle(me, old(st), old(log))
      ensures r.Some? ==> r.value == (cid in st.alive)
      ensures faults == old(faults) + (if r.None? then 1 else 0)
    {
      Others(me);
      var fails: bool := *;
      faults := if fails then faults + 1 else faults;
      r := if fails then None else Some(cid in st.alive);
    }
  }

  function ManagedOf(s: State, c: Cid): Managed
    requires c in s.issued
  {
    Managed(c, s.issued[c].challenge, s.issued[c].user)
  }

  ghost predicate ListsAlive(s: State, items: seq<Managed>) {
    && s.alive <= s.issued.Keys
    && (forall i | 0 <= i < |items| :: items[i].cid in s.alive && items[i] == ManagedOf(s, items[i].cid))
    && (forall c | c in s.alive :: ManagedOf(s, c) in items)
  }

  predicate Soonest(rows: map<nat, Row>, ids: set<nat>, id: nat)
    requires ids <= rows.Keys
  {
    id in ids && forall n | n in ids :: rows[id].expiresAt <= rows[n].expiresAt
  }

  lemma {:induction false} SoonestExists(rows: map<nat, Row>, ids: set<nat>)
    requires ids != {} && ids <= rows.Keys
    ensures exists id :: Soonest(rows, ids, id)
  {
    var c :| c in ids;
    var rest := ids - {c};
    assert forall n | n in ids :: n == c || n in rest;
    if rest == {} {
      assert Soonest(rows, ids, c);
    } else {
      SoonestExists(rows, rest);
      var id :| Soonest(rows, rest, id);
      assert Soonest(rows, ids, if rows[c].expiresAt <= rows[id].expiresAt then c else id);
    }
  }

  method SortByExpiry(s: State, ids: set<nat>) returns (list: seq<Item>)
    requires ids <= s.rows.Keys
    ensures ListsExactly(s, list, ids) && SoonestFirst(list)
  {
    list := [];
    var left := ids;
    while left != {}
      invariant left <= ids
      invariant ListsExactly(s, list, ids - left) && SoonestFirst(list)
      invariant forall i, id | 0 <= i < |list| && id in left :: list[i].row.expiresAt <= s.rows[id].expiresAt
    {
      SoonestExists(s.rows, left);
      var id :| id in left && Soonest(s.rows, left, id);
      ListedMore(s, list, ids - left, id);
      assert ids - (left - {id}) == (ids - left) + {id};
      left := left - {id};
      list := list + [Item(id, s.rows[id])];
    }
  }

  lemma ListedMore(s: State, list: seq<Item>, done: set<nat>, id: nat)
    requires ListsExactly(s, list, done) && id in s.rows && id !in done
    ensures ListsExactly(s, list + [Item(id, s.rows[id])], done + {id})
  {
  }

  method CollectActive(k: Setup, s: State) returns (list: seq<Item>)
    requires RowsTracked(k, s)
    ensures ListsExactly(s, list, s.ActiveIds())
  {
    list := [];
    for id := 0 to s.nextRow
      invariant forall i | 0 <= i < |list| :: list[i].id < id && s.ActiveRow(list[i].id) && list[i].row == s.rows[list[i].id]
      invariant forall n | 0 <= n < id && s.ActiveRow(n) :: Item(n, s.rows[n]) in list
      invariant forall i, j | 0 <= i < j < |list| :: list[i].id < list[j].id
    {
      if id in s.rows && s.rows[id].Active() {
        list := list + [Item(id, s.rows[id])];
      }
    }
  }

  lemma FreshIdExists(used: set<Cid>)
    ensures exists c: Cid :: c !in used
  {
    var top := UpperBound(used);
    assert top !in used;
  }

  lemma {:induction false} UpperBound(used: set<Cid>) returns (top: nat)
    ensures forall c | c in used :: c < top
  {
    if used == {} {
      top := 0;
    } else {
      var c :| c in used;
      var rest := UpperBound(used - {c});
      top := if rest <= c then c + 1 else rest;
      assert used == (used - {c}) + {c};
    }
  }
}
