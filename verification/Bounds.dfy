// Quantitative consequences of the lifecycle automaton over whole runs of one process:
// how long an instance can live, and how many instances a user can create.

module Bounds {
  import opened Options
  import opened Sets
  import opened Protocol
  import opened Safety

  // ---- Lifetime -------------------------------------------------------------------------------

  // At every moment up to n the last completed sweep is at most period old: sweeps succeed, and
  // each completes within period of the clock reading of the one before.
  ghost predicate SweptEvery(period: nat, origin: State, log: seq<Entry>, n: nat)
    requires n <= |log|
  {
    forall i: nat | i <= n :: StateAt(origin, log, i).now <= StateAt(origin, log, i).swept + period
  }

  // The latest expiry a row can have been given by now.
  function Latest(row: Row, ttl: int, period: nat): int {
    row.startedAt + Times(1 + row.renewals, Max(ttl, 0)) + Times(row.renewals, period)
  }

  ghost predicate TermsCapped(k: Setup, s: State, period: nat) {
    forall id | s.ActiveRow(id) && k.Knows(s.rows[id].challenge) ::
      var latest := Latest(s.rows[id], k.configs[s.rows[id].challenge].ttl, period);
      s.rows[id].expiresAt <= latest && s.swept <= latest
  }

  lemma CappedStep(k: Setup, s: State, who: Actor, e: Event, period: nat)
    requires k.solo && TermsCapped(k, s, period) && Enabled(k, s, who, e)
    requires s.now <= s.swept + period
    ensures TermsCapped(k, Apply(s, who, e), period)
  {
    var t := Apply(s, who, e);
    forall id | t.ActiveRow(id) && k.Knows(t.rows[id].challenge)
      ensures
        var latest := Latest(t.rows[id], k.configs[t.rows[id].challenge].ttl, period);
        t.rows[id].expiresAt <= latest && t.swept <= latest
    {
      var ttl := k.configs[t.rows[id].challenge].ttl;
      if e.Insert? && e.id == id {
        assert Times(1, Max(ttl, 0)) == Max(ttl, 0);
      } else {
        assert s.ActiveRow(id);
        var latest := Latest(s.rows[id], ttl, period);
        if e.Extend? && e.id == id {
          assert t.rows[id].renewals == s.rows[id].renewals + 1;
          assert Latest(t.rows[id], ttl, period) == latest + Max(ttl, 0) + period;
        }
      }
    }
  }

  lemma {:induction false} CappedRun(k: Setup, origin: State, log: seq<Entry>, n: nat, period: nat)
    requires IsRun(k, origin, log) && k.solo && n <= |log|
    requires TermsCapped(k, origin, period) && SweptEvery(period, origin, log, n)
    ensures TermsCapped(k, StateAt(origin, log, n), period)
  {
    if n > 0 {
      CappedRun(k, origin, log, n - 1, period);
      assert StepAt(k, origin, log, n - 1);
      assert StateAt(origin, log, n - 1).now <= StateAt(origin, log, n - 1).swept + period;
      CappedStep(k, StateAt(origin, log, n - 1), log[n - 1].who, log[n - 1].event, period);
    }
  }

  lemma {:induction false} TimesSum(n: nat, a: int, b: int)
    ensures Times(n, a) + Times(n, b) == Times(n, a + b)
  {
    if n > 0 {
      TimesSum(n - 1, a, b);
    }
  }

  // With sweeps at most period apart, an instance of a challenge with time-to-live ttl and renewal
  // limit R is gone by startedAt + (R + 1) * (ttl + period); until then every renewal it was given
  // bought it a full ttl.
  lemma LifetimeBound(k: Setup, origin: State, log: seq<Entry>, n: nat, id: nat, period: nat)
    requires IsRun(k, origin, log) && Inv(k, origin) && k.solo && n <= |log|
    requires TermsCapped(k, origin, period) && SweptEvery(period, origin, log, n)
    requires id in StateAt(origin, log, n).rows
    ensures
      var s := StateAt(origin, log, n);
      var row := s.rows[id];
      k.Knows(row.challenge) &&
      var cfg := k.configs[row.challenge];
      var limit := Max(cfg.maxRenewals, 0);
      && row.renewals <= limit
      && row.startedAt + (1 + row.renewals) * cfg.ttl <= row.expiresAt
      && (s.now > row.startedAt + (limit + 1) * (Max(cfg.ttl, 0) + period) ==> !row.Active())
  {
    var s := StateAt(origin, log, n);
    var row := s.rows[id];
    InvRun(k, origin, log, n);
    CappedRun(k, origin, log, n, period);
    var cfg := k.configs[row.challenge];
    var limit := Max(cfg.maxRenewals, 0);
    var ttl: nat := Max(cfg.ttl, 0);
    TimesIsProduct(1 + row.renewals, cfg.ttl);
    if row.Active() {
      TimesMonotone(1 + row.renewals, 1 + limit, ttl);
      TimesMonotone(row.renewals, limit, period);
      TimesSum(1 + limit, ttl, period);
      TimesIsProduct(limit + 1, ttl + period);
      assert s.now <= s.swept + period;
    }
  }

  // ---- Cooldown -------------------------------------------------------------------------------

  ghost predicate Spaced(rows: map<nat, Row>, ids: set<nat>, gap: int) {
    && ids <= rows.Keys
    && forall i, j | i in ids && j in ids && i != j :: Apart(rows[i], rows[j], gap)
  }

  function StartedWithin(rows: map<nat, Row>, ids: set<nat>, from: int, length: int): set<nat>
    requires ids <= rows.Keys
  {
    set id | id in ids && from <= rows[id].startedAt <= from + length
  }

  // Starts spaced gap apart: the first gap of an interval holds at most one.
  lemma FirstGap(rows: map<nat, Row>, ids: set<nat>, from: int, length: int, gap: nat)
    requires Spaced(rows, ids, gap)
    ensures |StartedWithin(rows, ids, from, length)| <= 1 + |StartedWithin(rows, ids, from + gap, length - gap)|
  {
    var all := StartedWithin(rows, ids, from, length);
    var rest := StartedWithin(rows, ids, from + gap, length - gap);
    AtMostOne(all - rest);
    assert all <= (all - rest) + rest;
    SubsetSize(all, (all - rest) + rest);
  }

  // Starts spaced gap apart leave a full gap between each two of them.
  lemma {:induction false} SpacedCount(rows: map<nat, Row>, ids: set<nat>, from: int, length: int, gap: nat)
    requires gap > 0 && length + gap >= 0 && Spaced(rows, ids, gap)
    ensures length < 0 ==> |StartedWithin(rows, ids, from, length)| == 0
    ensures length >= 0 ==> (|StartedWithin(rows, ids, from, length)| - 1) * gap <= length
    decreases length + gap
  {
    if length < 0 {
      assert StartedWithin(rows, ids, from, length) == {};
    } else {
      FirstGap(rows, ids, from, length, gap);
      SpacedCount(rows, ids, from + gap, length - gap, gap);
      GapMore(|StartedWithin(rows, ids, from, length)|, |StartedWithin(rows, ids, from + gap, length - gap)|, gap, length);
    }
  }

  lemma GapMore(n: nat, m: nat, gap: nat, length: nat)
    requires n <= m + 1 && if length < gap then m == 0 else (m - 1) * gap <= length - gap
    ensures (n - 1) * gap <= length
  {
    if m == 0 {
      Scale(n - 1, 0, gap);
    } else {
      Scale(n - 1, m, gap);
      assert m * gap == (m - 1) * gap + gap;
    }
  }

  lemma Scale(m: int, n: int, unit: nat)
    requires m <= n
    ensures m * unit <= n * unit
  {
  }

  lemma AtMostOne<T>(s: set<T>)
    requires forall a, b | a in s && b in s :: a == b
    ensures |s| <= 1
  {
    if s != {} {
      var a :| a in s;
      assert s == {a};
    }
  }

  function RowsOf(s: State, challenge: string, user: int): set<nat> {
    set id | id in s.rows && s.rows[id].Owned(challenge, user)
  }

  // A user who created n instances of one challenge within an interval waited n - 1 full cooldowns
  // in it, that is n <= floor(length / cooldown) + 1, over the whole run and whatever became of the
  // earlier instances.
  lemma CreationsBounded(
    k: Setup, origin: State, log: seq<Entry>, n: nat, challenge: string, user: int, from: int, length: nat)
    requires IsRun(k, origin, log) && Inv(k, origin) && k.solo && n <= |log|
    requires k.Knows(challenge) && k.configs[challenge].cooldown > 0
    ensures
      var s := StateAt(origin, log, n);
      (|StartedWithin(s.rows, RowsOf(s, challenge, user), from, length)| - 1) * k.configs[challenge].cooldown <= length
  {
    InvRun(k, origin, log, n);
    var s := StateAt(origin, log, n);
    SpacedCount(s.rows, RowsOf(s, challenge, user), from, length, k.configs[challenge].cooldown);
  }

  // ---- Ports ----------------------------------------------------------------------------------

  // A fixed pool caps the number of instances alive at once.
  lemma PoolBoundsInstances(k: Setup, origin: State, log: seq<Entry>, n: nat)
    requires IsRun(k, origin, log) && Inv(k, origin) && k.solo && k.Pooled() && n <= |log|
    ensures |StateAt(origin, log, n).ActiveIds()| <= k.portMax - k.portMin + 1
  {
    InvRun(k, origin, log, n);
    var s := StateAt(origin, log, n);
    InjectionBound(s.rows, s.ActiveIds(), k.portMin, k.portMax + 1);
  }

  lemma {:induction false} InjectionBound(rows: map<nat, Row>, ids: set<nat>, low: int, high: int)
    requires ids <= rows.Keys && low <= high
    requires forall id | id in ids :: low <= rows[id].port < high
    requires forall i, j | i in ids && j in ids && rows[i].port == rows[j].port :: i == j
    ensures |ids| <= high - low
    decreases high - low
  {
    if ids != {} {
      var top := set id | id in ids && rows[id].port == high - 1;
      AtMostOne(top);
      InjectionBound(rows, ids - top, low, high - 1);
      assert ids == (ids - top) + top;
    }
  }
}
