// What every run of the lifecycle automaton keeps.

module Safety {
  import opened Options
  import opened Sets
  import opened Protocol

  // ---- Kept by any number of processes --------------------------------------------------------

  ghost predicate RowsTracked(k: Setup, s: State) {
    forall id | id in s.rows ::
      && id < s.nextRow
      && k.Knows(s.rows[id].challenge)
      && s.rows[id].container in s.issued
      && var c := s.issued[s.rows[id].container];
         c.challenge == s.rows[id].challenge && c.user == s.rows[id].user && c.port == s.rows[id].port
  }

  ghost predicate ContainersDistinct(s: State) {
    forall i, j | i in s.rows && j in s.rows && s.rows[i].container == s.rows[j].container :: i == j
  }

  ghost predicate RetiredStopped(s: State) {
    forall id | id in s.rows && !s.rows[id].Active() :: s.rows[id].container !in s.alive
  }

  ghost predicate OneActivePerKey(s: State) {
    forall i, j | s.ActiveRow(i) && s.ActiveRow(j) && s.rows[i].Owned(s.rows[j].challenge, s.rows[j].user)
      :: i == j
  }

  ghost predicate Core(k: Setup, s: State) {
    && RowsTracked(k, s)
    && ContainersDistinct(s)
    && s.alive <= s.issued.Keys
    && RetiredStopped(s)
    && OneActivePerKey(s)
  }

  // ---- Kept by one process --------------------------------------------------------------------

  ghost predicate WithinCapacity(k: Setup, s: State) {
    forall ch | k.Knows(ch) && k.configs[ch].maxActive > 0 :: |s.ActiveOf(ch)| <= k.configs[ch].maxActive
  }

  ghost predicate PortsExclusive(k: Setup, s: State) {
    k.Pooled() ==>
      && (forall id | s.ActiveRow(id) :: k.portMin <= s.rows[id].port <= k.portMax)
      && (forall i, j | s.ActiveRow(i) && s.ActiveRow(j) && s.rows[i].port == s.rows[j].port :: i == j)
  }

  ghost predicate Apart(a: Row, b: Row, gap: int) {
    a.startedAt + gap <= b.startedAt || b.startedAt + gap <= a.startedAt
  }

  ghost predicate CooledDown(k: Setup, s: State) {
    forall i, j | i in s.rows && j in s.rows && i != j && s.rows[i].Owned(s.rows[j].challenge, s.rows[j].user)
                  && k.Knows(s.rows[i].challenge) && k.configs[s.rows[i].challenge].cooldown > 0
      :: Apart(s.rows[i], s.rows[j], k.configs[s.rows[i].challenge].cooldown)
  }

  // Renewals stay within the limit, and each renewal and the launch bought one full TTL.
  ghost predicate TermsKept(k: Setup, s: State) {
    && s.swept <= s.now
    && forall id | id in s.rows && k.Knows(s.rows[id].challenge) ::
         var cfg := k.configs[s.rows[id].challenge];
         && s.rows[id].startedAt <= s.now
         && s.rows[id].renewals <= Max(cfg.maxRenewals, 0)
         && s.rows[id].startedAt + Times(1 + s.rows[id].renewals, cfg.ttl) <= s.rows[id].expiresAt
  }

  // The one mutex admits one thread at a time.
  ghost predicate OneHolder(s: State) {
    forall p | p in s.holder :: p == 0
  }

  ghost predicate Solo(k: Setup, s: State) {
    OneHolder(s) && WithinCapacity(k, s) && PortsExclusive(k, s) && CooledDown(k, s) && TermsKept(k, s)
  }

  ghost predicate Inv(k: Setup, s: State) {
    Core(k, s) && (k.solo ==> Solo(k, s))
  }

  function Times(n: nat, unit: int): int {
    if n == 0 then 0 else Times(n - 1, unit) + unit
  }

  lemma {:induction false} TimesMonotone(m: nat, n: nat, unit: nat)
    requires m <= n
    ensures Times(m, unit) <= Times(n, unit)
  {
    if m < n {
      TimesMonotone(m, n - 1, unit);
    }
  }

  lemma {:induction false} TimesIsProduct(n: nat, unit: int)
    ensures Times(n, unit) == n * unit
  {
    if n > 0 {
      TimesIsProduct(n - 1, unit);
    }
  }

  // ---- One step -------------------------------------------------------------------------------

  lemma CoreStep(k: Setup, s: State, who: Actor, e: Event)
    requires Core(k, s) && Enabled(k, s, who, e)
    ensures Core(k, Apply(s, who, e))
  {
    TrackedStep(k, s, who, e);
    DistinctStep(k, s, who, e);
    KeyStep(k, s, who, e);
  }

  lemma TrackedStep(k: Setup, s: State, who: Actor, e: Event)
    requires Core(k, s) && Enabled(k, s, who, e)
    ensures
      var t := Apply(s, who, e);
      RowsTracked(k, t) && t.alive <= t.issued.Keys && RetiredStopped(t)
  {
  }

  lemma DistinctStep(k: Setup, s: State, who: Actor, e: Event)
    requires Core(k, s) && Enabled(k, s, who, e)
    ensures ContainersDistinct(Apply(s, who, e))
  {
  }

  lemma KeyStep(k: Setup, s: State, who: Actor, e: Event)
    requires Core(k, s) && Enabled(k, s, who, e)
    ensures OneActivePerKey(Apply(s, who, e))
  {
  }

  // The rows of t are rows of s, at most renewed or terminated.
  ghost predicate Follows(s: State, t: State) {
    forall id | id in t.rows :: id in s.rows && Followed(s.rows[id], t.rows[id])
  }

  predicate Followed(a: Row, b: Row) {
    && b.challenge == a.challenge && b.user == a.user && b.port == a.port && b.startedAt == a.startedAt
    && (b.Active() ==> a.Active())
  }

  lemma FollowsStep(k: Setup, s: State, who: Actor, e: Event)
    requires Enabled(k, s, who, e) && !e.Insert?
    ensures Follows(s, Apply(s, who, e))
  {
  }

  lemma CapacityStays(k: Setup, s: State, t: State)
    requires WithinCapacity(k, s) && Follows(s, t)
    ensures WithinCapacity(k, t)
  {
    forall ch | k.Knows(ch) && k.configs[ch].maxActive > 0
      ensures |t.ActiveOf(ch)| <= k.configs[ch].maxActive
    {
      SubsetSize(t.ActiveOf(ch), s.ActiveOf(ch));
    }
  }

  lemma CapacityInsert(k: Setup, s: State, t: State, id: nat, row: Row)
    requires WithinCapacity(k, s) && k.Knows(row.challenge) && Admissible(k, s, row)
    requires id !in s.rows && t.rows == s.rows[id := row]
    ensures WithinCapacity(k, t)
  {
    forall ch | k.Knows(ch) && k.configs[ch].maxActive > 0
      ensures |t.ActiveOf(ch)| <= k.configs[ch].maxActive
    {
      SubsetSize(t.ActiveOf(ch), s.ActiveOf(ch) + if row.challenge == ch then {id} else {});
    }
  }

  lemma CapacityStep(k: Setup, s: State, who: Actor, e: Event)
    requires k.solo && WithinCapacity(k, s) && RowsTracked(k, s) && Enabled(k, s, who, e)
    ensures WithinCapacity(k, Apply(s, who, e))
  {
    if e.Insert? {
      CapacityInsert(k, s, Apply(s, who, e), e.id, e.row);
    } else {
      FollowsStep(k, s, who, e);
      CapacityStays(k, s, Apply(s, who, e));
    }
  }

  lemma PortsStay(k: Setup, s: State, t: State)
    requires PortsExclusive(k, s) && Follows(s, t)
    ensures PortsExclusive(k, t)
  {
  }

  lemma PortStep(k: Setup, s: State, who: Actor, e: Event)
    requires k.solo && PortsExclusive(k, s) && Enabled(k, s, who, e)
    ensures PortsExclusive(k, Apply(s, who, e))
  {
    if !e.Insert? {
      FollowsStep(k, s, who, e);
      PortsStay(k, s, Apply(s, who, e));
    }
  }

  lemma CooldownStays(k: Setup, s: State, t: State)
    requires CooledDown(k, s) && Follows(s, t)
    ensures CooledDown(k, t)
  {
  }

  lemma CooldownStep(k: Setup, s: State, who: Actor, e: Event)
    requires k.solo && CooledDown(k, s) && RowsTracked(k, s) && Enabled(k, s, who, e)
    ensures CooledDown(k, Apply(s, who, e))
  {
    if !e.Insert? {
      FollowsStep(k, s, who, e);
      CooldownStays(k, s, Apply(s, who, e));
    }
  }

  lemma TermsStep(k: Setup, s: State, who: Actor, e: Event)
    requires k.solo && TermsKept(k, s) && Enabled(k, s, who, e)
    ensures TermsKept(k, Apply(s, who, e))
  {
  }

  lemma InvStep(k: Setup, s: State, who: Actor, e: Event)
    requires Inv(k, s) && Enabled(k, s, who, e)
    ensures Inv(k, Apply(s, who, e))
  {
    CoreStep(k, s, who, e);
    if k.solo {
      CapacityStep(k, s, who, e);
      PortStep(k, s, who, e);
      CooldownStep(k, s, who, e);
      TermsStep(k, s, who, e);
    }
  }

  // ---- Whole runs -----------------------------------------------------------------------------

  lemma FreshDeployment(k: Setup, now: int)
    ensures Inv(k, State(map[], 0, map[], {}, map[], now, now))
  {
    var s := State(map[], 0, map[], {}, map[], now, now);
    assert forall ch :: s.ActiveOf(ch) == {};
  }

  lemma {:induction false} InvRun(k: Setup, origin: State, log: seq<Entry>, i: nat)
    requires IsRun(k, origin, log) && Inv(k, origin) && i <= |log|
    ensures Inv(k, StateAt(origin, log, i))
  {
    if i > 0 {
      InvRun(k, origin, log, i - 1);
      assert StepAt(k, origin, log, i - 1);
      InvStep(k, StateAt(origin, log, i - 1), log[i - 1].who, log[i - 1].event);
    }
  }

  // A row, once terminated, is terminated for good and its container never runs again, however
  // request threads of any number of processes and administrators interleave.
  lemma {:induction false} RetiredForGood(k: Setup, origin: State, log: seq<Entry>, i: nat, j: nat, id: nat)
    requires IsRun(k, origin, log) && Inv(k, origin) && i <= j <= |log|
    requires id in StateAt(origin, log, i).rows && !StateAt(origin, log, i).rows[id].Active()
    ensures
      var t := StateAt(origin, log, j);
      id in t.rows && !t.rows[id].Active() && t.rows[id].container !in t.alive
      && t.rows[id].container == StateAt(origin, log, i).rows[id].container
    decreases j
  {
    InvRun(k, origin, log, j);
    if i < j {
      RetiredForGood(k, origin, log, i, j - 1, id);
      assert StepAt(k, origin, log, j - 1);
      InvRun(k, origin, log, j - 1);
    }
  }

  // With one process, a running container of an active row is lost only to the engine itself or to
  // a stop aimed at that very row: by its owner, after its expiry, or by an administrator.
  // Reconciliation and the cleanup of failed starts never take it.
  lemma LiveContainerLoss(k: Setup, origin: State, log: seq<Entry>, i: nat, id: nat)
    requires IsRun(k, origin, log) && Inv(k, origin) && k.solo && i < |log|
    requires StateAt(origin, log, i).ActiveRow(id)
    requires StateAt(origin, log, i).rows[id].container in StateAt(origin, log, i).alive
    requires StateAt(origin, log, i).rows[id].container !in log[i].after.alive
    ensures
      var s := StateAt(origin, log, i);
      || log[i].event == Vanish(s.rows[id].container)
      || log[i].event == Stop(id, ByOwner(s.rows[id].user))
      || (log[i].event == Stop(id, ByExpiry) && s.rows[id].expiresAt <= s.now)
      || (log[i].event == Stop(id, ByAdmin) && log[i].who.Admin?)
  {
    InvRun(k, origin, log, i);
    assert StepAt(k, origin, log, i);
  }

  ghost predicate InFlight(s: State, w: Actor, c: Cid) {
    && s.Holds(w)
    && c in s.issued && s.issued[c].launcher == w
    && forall id | id in s.rows :: s.rows[id].container != c
  }

  // With one process, the container of a start whose row is not yet inserted is safe from everyone
  // but its own thread and the engine: no reconciliation, sweep or administrator stops it.
  lemma {:induction false} InFlightContainerSafe(
    k: Setup, origin: State, log: seq<Entry>, i: nat, j: nat, w: Actor, c: Cid)
    requires IsRun(k, origin, log) && Inv(k, origin) && k.solo && i <= j <= |log|
    requires InFlight(StateAt(origin, log, i), w, c) && c in StateAt(origin, log, i).alive
    requires forall n | i <= n < j :: log[n].who != w && log[n].event != Vanish(c)
    ensures InFlight(StateAt(origin, log, j), w, c) && c in StateAt(origin, log, j).alive
    ensures StateAt(origin, log, j).rows.Keys == StateAt(origin, log, i).rows.Keys
    decreases j
  {
    if i < j {
      InFlightContainerSafe(k, origin, log, i, j - 1, w, c);
      assert StepAt(k, origin, log, j - 1);
      InvRun(k, origin, log, j - 1);
      InFlightStep(k, StateAt(origin, log, j - 1), w, c, log[j - 1].who, log[j - 1].event);
    }
  }

  lemma InFlightStep(k: Setup, s: State, w: Actor, c: Cid, who: Actor, e: Event)
    requires Inv(k, s) && k.solo && Enabled(k, s, who, e) && who != w && e != Vanish(c)
    requires InFlight(s, w, c) && c in s.alive
    ensures
      var t := Apply(s, who, e);
      InFlight(t, w, c) && c in t.alive && t.rows.Keys == s.rows.Keys
  {
    assert !s.Holds(who);
  }
}
