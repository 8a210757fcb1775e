// Counting windows. A limiter admits calls in consecutive windows: each admits at most max calls
// and starts at least a window length after the one before. That alone bounds every interval.

module Windows {
  import opened Options

  // An admitted call: when, and in which window of its key.
  datatype Grant = Grant(at: int, epoch: nat)

  function CountIn(grants: seq<Grant>, epoch: nat): nat {
    if grants == [] then 0
    else
      CountIn(grants[..|grants| - 1], epoch) + (if grants[|grants| - 1].epoch == epoch then 1 else 0)
  }

  function CountWithin(grants: seq<Grant>, from: int, to: int): nat {
    if grants == [] then 0
    else
      CountWithin(grants[..|grants| - 1], from, to) + (if from <= grants[|grants| - 1].at <= to then 1 else 0)
  }

  predicate Spread(starts: seq<int>, window: int) {
    forall d, e | 0 <= d < e < |starts| :: starts[d] + window <= starts[e]
  }

  // A grant lies in its window: from its start and before the next one's.
  predicate InWindow(starts: seq<int>, g: Grant) {
    && g.epoch < |starts| && starts[g.epoch] <= g.at
    && (g.epoch + 1 < |starts| ==> g.at < starts[g.epoch + 1])
  }

  predicate Placed(starts: seq<int>, grants: seq<Grant>) {
    forall g | g in grants :: InWindow(starts, g)
  }

  ghost predicate Capped(grants: seq<Grant>, max: int) {
    forall e: nat :: CountIn(grants, e) <= max
  }

  ghost predicate Epochal(starts: seq<int>, grants: seq<Grant>, window: int, max: int) {
    Spread(starts, window) && Placed(starts, grants) && Capped(grants, max)
  }

  lemma {:induction false} SpreadFar(starts: seq<int>, window: int, e: nat, m: nat)
    requires Spread(starts, window) && window > 0 && e + m < |starts|
    ensures starts[e] + m * window <= starts[e + m]
    decreases m
  {
    if m > 0 {
      SpreadFar(starts, window, e, m - 1);
      assert m * window == (m - 1) * window + window;
    }
  }

  // A call at most m window lengths after another falls at most m windows later.
  lemma NearEpochs(starts: seq<int>, window: int, g: Grant, h: Grant, m: nat)
    requires Spread(starts, window) && InWindow(starts, g) && InWindow(starts, h)
    requires window > 0 && h.at <= g.at + m * window
    ensures h.epoch <= g.epoch + m
  {
    if g.epoch + 1 + m < |starts| {
      SpreadFar(starts, window, g.epoch + 1, m);
    }
  }

  predicate Within(g: Grant, from: int, to: int) { from <= g.at <= to }

  // The grants of n windows.
  function CountSpan(grants: seq<Grant>, epoch: nat, n: nat): nat {
    if n == 0 then 0 else CountSpan(grants, epoch, n - 1) + CountIn(grants, epoch + n - 1)
  }

  lemma {:induction false} SpanMore(grants: seq<Grant>, epoch: nat, n: nat)
    requires grants != []
    ensures
      var last := grants[|grants| - 1];
      CountSpan(grants, epoch, n) ==
      CountSpan(grants[..|grants| - 1], epoch, n) + if epoch <= last.epoch < epoch + n then 1 else 0
  {
    if n > 0 { SpanMore(grants, epoch, n - 1); }
  }

  lemma {:induction false} SpanCapped(grants: seq<Grant>, epoch: nat, n: nat, max: int)
    requires Capped(grants, max)
    ensures CountSpan(grants, epoch, n) <= n * max
  {
    if n > 0 {
      SpanCapped(grants, epoch, n - 1, max);
      assert CountIn(grants, epoch + n - 1) <= max;
      assert n * max == (n - 1) * max + max;
    }
  }

  lemma {:induction false} WithinSpan(grants: seq<Grant>, from: int, to: int, epoch: nat, n: nat)
    requires forall g | g in grants && Within(g, from, to) :: epoch <= g.epoch < epoch + n
    ensures CountWithin(grants, from, to) <= CountSpan(grants, epoch, n)
  {
    if grants != [] {
      var front, last := grants[..|grants| - 1], grants[|grants| - 1];
      assert last in grants && forall g | g in front :: g in grants;
      WithinSpan(front, from, to, epoch, n);
      SpanMore(grants, epoch, n);
    }
  }

  lemma {:induction false} NoneWithin(grants: seq<Grant>, from: int, to: int)
    requires forall g | g in grants :: !Within(g, from, to)
    ensures CountWithin(grants, from, to) == 0
  {
    if grants != [] {
      NoneWithin(grants[..|grants| - 1], from, to);
      assert grants[|grants| - 1] in grants;
    }
  }

  // A grant of the least epoch among those of an interval.
  lemma {:induction false} EarliestWithin(grants: seq<Grant>, from: int, to: int) returns (first: Grant)
    requires exists g | g in grants :: Within(g, from, to)
    ensures first in grants && Within(first, from, to)
    ensures forall g | g in grants && Within(g, from, to) :: first.epoch <= g.epoch
  {
    var front, last := grants[..|grants| - 1], grants[|grants| - 1];
    assert forall g | g in grants :: g in front || g == last;
    if exists g | g in front :: Within(g, from, to) {
      first := EarliestWithin(front, from, to);
      if Within(last, from, to) && last.epoch < first.epoch {
        first := last;
      }
    } else {
      first := last;
    }
  }

  // Any closed interval of m window lengths holds at most m + 1 windows' worth of admitted calls.
  lemma SpanBound(starts: seq<int>, grants: seq<Grant>, window: int, max: int, from: int, m: nat)
    requires Epochal(starts, grants, window, max) && window > 0
    ensures CountWithin(grants, from, from + m * window) <= (m + 1) * max
  {
    var to := from + m * window;
    if exists g | g in grants :: Within(g, from, to) {
      var first := EarliestWithin(grants, from, to);
      forall g | g in grants && Within(g, from, to) ensures first.epoch <= g.epoch < first.epoch + m + 1 {
        NearEpochs(starts, window, first, g, m);
      }
      WithinSpan(grants, from, to, first.epoch, m + 1);
      SpanCapped(grants, first.epoch, m + 1, max);
    } else {
      NoneWithin(grants, from, to);
      WithinSpan(grants, from, to, 0, m + 1);
      SpanCapped(grants, 0, m + 1, max);
    }
  }

  // Any closed interval of one window length holds at most two windows' worth of admitted calls.
  lemma SlidingBound(starts: seq<int>, grants: seq<Grant>, window: int, max: int, from: int)
    requires Epochal(starts, grants, window, max) && window > 0
    ensures CountWithin(grants, from, from + window) <= 2 * max
  {
    SpanBound(starts, grants, window, max, from, 1);
  }

  lemma {:induction false} CountWithinMore(grants: seq<Grant>, g: Grant)
    ensures forall from, to ::
              CountWithin(grants + [g], from, to) == CountWithin(grants, from, to) + (if from <= g.at <= to then 1 else 0)
  {
    assert (grants + [g])[..|grants|] == grants;
  }

  // ---- Keeping a log epochal --------------------------------------------------------------------

  // A window counter: how many hits, and when it closes, once that is decided.
  datatype Cell = Cell(count: nat, end: Option<int>) {
    predicate Live(now: int) { end.None? || now < end.value }
  }

  function Min(a: int, b: int): int { if a < b then a else b }

  // The log of a key agrees with its counter. The last window holds at most count grants; it closes
  // after all of them and at least a window length after it began.
  ghost predicate Tracked(
    cell: Option<Cell>, starts: seq<int>, grants: seq<Grant>, window: int, max: int, now: int)
  {
    && Epochal(starts, grants, window, max)
    && (cell.None? ==> starts == [])
    && (cell.Some? ==>
          && starts != []
          && CountIn(grants, |starts| - 1) <= Min(cell.value.count, max)
          && starts[|starts| - 1] <= now
          && (cell.value.end.Some? ==> starts[|starts| - 1] + window <= cell.value.end.value))
    && Dated(cell, grants, now)
  }

  predicate Dated(cell: Option<Cell>, grants: seq<Grant>, now: int) {
    forall g | g in grants :: g.at <= now && (cell.Some? && cell.value.end.Some? ==> g.at < cell.value.end.value)
  }

  lemma {:induction false} CountInMore(grants: seq<Grant>, g: Grant, epoch: nat)
    ensures CountIn(grants + [g], epoch) == CountIn(grants, epoch) + (if g.epoch == epoch then 1 else 0)
  {
    assert (grants + [g])[..|grants|] == grants;
  }

  lemma {:induction false} CountInNone(grants: seq<Grant>, epoch: nat)
    requires forall g | g in grants :: g.epoch < epoch
    ensures CountIn(grants, epoch) == 0
  {
    if grants != [] {
      CountInNone(grants[..|grants| - 1], epoch);
    }
  }

  lemma {:induction false} CappedMore(grants: seq<Grant>, g: Grant, max: int)
    requires Capped(grants, max) && CountIn(grants, g.epoch) < max
    ensures Capped(grants + [g], max)
  {
    forall e: nat ensures CountIn(grants + [g], e) <= max {
      CountInMore(grants, g, e);
      assert CountIn(grants, e) <= max;
    }
  }

  // A hit that finds no live counter begins a window, still empty.
  lemma {:induction false} OpenTracked(cell: Option<Cell>, starts: seq<int>, grants: seq<Grant>, window: int, max: int, now: int, at: int)
    requires Tracked(cell, starts, grants, window, max, now) && now <= at && window > 0 && max > 0
    requires cell.Some? ==> !cell.value.Live(at)
    ensures Tracked(Some(Cell(0, None)), starts + [at], grants, window, max, at)
  {
    CountInNone(grants, |starts|);
    SpreadMore(starts, window, at);
    PlacedAnew(starts, grants, at);
    assert |starts + [at]| - 1 == |starts|;
  }

  lemma {:induction false} SpreadMore(starts: seq<int>, window: int, at: int)
    requires Spread(starts, window) && window >= 0 && (starts != [] ==> starts[|starts| - 1] + window <= at)
    ensures Spread(starts + [at], window)
  {
  }

  lemma {:induction false} PlacedAnew(starts: seq<int>, grants: seq<Grant>, at: int)
    requires Placed(starts, grants) && forall g | g in grants :: g.at < at
    ensures Placed(starts + [at], grants)
  {
  }

  // A further hit in a live window; it may be admitted while the count stays within max.
  lemma {:induction false} HitTracked(
    cell: Cell, starts: seq<int>, grants: seq<Grant>, window: int, max: int, now: int, at: int, granted: bool)
    requires Tracked(Some(cell), starts, grants, window, max, now) && now <= at
    requires cell.Live(at) && (granted ==> cell.count + 1 <= max)
    ensures
      var more := if granted then grants + [Grant(at, |starts| - 1)] else grants;
      Tracked(Some(cell.(count := cell.count + 1)), starts, more, window, max, at)
  {
    if granted {
      CappedMore(grants, Grant(at, |starts| - 1), max);
      CountInMore(grants, Grant(at, |starts| - 1), |starts| - 1);
    }
  }

  function NextStarts(cell: Option<Cell>, starts: seq<int>, at: int): seq<int> {
    if cell.Some? && cell.value.Live(at) then starts else starts + [at]
  }

  function NextCell(cell: Option<Cell>, at: int): Cell {
    if cell.Some? && cell.value.Live(at) then cell.value.(count := cell.value.count + 1) else Cell(1, None)
  }

  // Any hit: in a live window it counts, otherwise it begins one.
  lemma {:induction false} AnyHitTracked(
    cell: Option<Cell>, starts: seq<int>, grants: seq<Grant>, window: int, max: int, at: int, granted: bool)
    requires Tracked(cell, starts, grants, window, max, at) && window > 0 && max > 0
    requires granted ==> NextCell(cell, at).count <= max
    ensures
      var next := NextStarts(cell, starts, at);
      Tracked(Some(NextCell(cell, at)), next, if granted then grants + [Grant(at, |next| - 1)] else grants, window, max, at)
  {
    if cell.Some? && cell.value.Live(at) {
      HitTracked(cell.value, starts, grants, window, max, at, at, granted);
    } else {
      OpenTracked(cell, starts, grants, window, max, at, at);
      HitTracked(Cell(0, None), starts + [at], grants, window, max, at, at, granted);
    }
  }

  // Deciding when the window closes.
  lemma {:induction false} ArmTracked(cell: Cell, starts: seq<int>, grants: seq<Grant>, window: int, max: int, now: int, at: int, length: int)
    requires Tracked(Some(cell), starts, grants, window, max, now) && now <= at && window > 0
    requires cell.Live(at) && window <= length
    ensures Tracked(Some(cell.(end := Some(at + length))), starts, grants, window, max, at)
  {
  }

  lemma {:induction false} Idle(cell: Option<Cell>, starts: seq<int>, grants: seq<Grant>, window: int, max: int, now: int, at: int)
    requires Tracked(cell, starts, grants, window, max, now) && now <= at
    ensures Tracked(cell, starts, grants, window, max, at)
  {
  }
}
