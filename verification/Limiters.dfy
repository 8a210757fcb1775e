// The request limiters: in memory, in Redis, and Redis with the memory limiter behind it.
// Times and durations are nanoseconds; Redis expiries have millisecond grain.

module MemoryLimiting {
  import opened Options
  import opened Windows

  datatype Limits = Limits(window: int, max: int) {
    predicate Off() { window <= 0 || max <= 0 }
  }

  datatype Bucket = Bucket(count: nat, windowEnd: int)

  type Buckets = map<string, Bucket>

  datatype Call = Call(key: string, at: int)

  predicate Ordered(calls: seq<Call>) {
    forall i, j | 0 <= i < j < |calls| :: calls[i].at <= calls[j].at
  }

  function Serve(l: Limits, b: Buckets, call: Call): (Buckets, bool) {
    if l.Off() then (b, true)
    else if call.key !in b || b[call.key].windowEnd <= call.at then
      (b[call.key := Bucket(1, call.at + l.window)], true)
    else if b[call.key].count >= l.max then (b, false)
    else (b[call.key := b[call.key].(count := b[call.key].count + 1)], true)
  }

  // memoryRateLimiter
  class MemoryLimiter {
    const limits: Limits
    var buckets: Buckets

    constructor (limits: Limits)
      ensures this.limits == limits && buckets == map[]
    {
      this.limits := limits;
      buckets := map[];
    }

    method Allow(key: string, now: int) returns (ok: bool)
      modifies this
      ensures (buckets, ok) == Serve(limits, old(buckets), Call(key, now))
    {
      if limits.window <= 0 || limits.max <= 0 { return true; }
      if key !in buckets || !(now < buckets[key].windowEnd) {
        buckets := buckets[key := Bucket(1, now + limits.window)];
        return true;
      }
      var bucket := buckets[key];
      if bucket.count >= limits.max { return false; }
      buckets := buckets[key := bucket.(count := bucket.count + 1)];
      return true;
    }
  }

  function After(l: Limits, calls: seq<Call>): Buckets {
    if calls == [] then map[] else Serve(l, After(l, calls[..|calls| - 1]), calls[|calls| - 1]).0
  }

  // Whether the last call of a run is admitted.
  predicate Admits(l: Limits, calls: seq<Call>)
    requires calls != []
  {
    Serve(l, After(l, calls[..|calls| - 1]), calls[|calls| - 1]).1
  }

  // How many calls with the key are admitted at times from..to.
  function Admitted(l: Limits, calls: seq<Call>, key: string, from: int, to: int): nat {
    if calls == [] then 0
    else
      var last := calls[|calls| - 1];
      Admitted(l, calls[..|calls| - 1], key, from, to)
      + (if last.key == key && from <= last.at <= to && Admits(l, calls) then 1 else 0)
  }

  function CellOf(b: Buckets, key: string): Option<Cell> {
    if key in b then Some(Cell(b[key].count, Some(b[key].windowEnd))) else None
  }

  // These grants are the admitted calls of the key.
  ghost predicate Accounts(l: Limits, calls: seq<Call>, key: string, grants: seq<Grant>) {
    forall from, to :: CountWithin(grants, from, to) == Admitted(l, calls, key, from, to)
  }

  lemma AccountsMore(l: Limits, calls: seq<Call>, key: string, grants: seq<Grant>, window: nat)
    requires calls != [] && Accounts(l, calls[..|calls| - 1], key, grants)
    ensures
      var last := calls[|calls| - 1];
      Accounts(l, calls, key, if last.key == key && Admits(l, calls) then grants + [Grant(last.at, window)] else grants)
  {
    var front, last := calls[..|calls| - 1], calls[|calls| - 1];
    CountWithinMore(grants, Grant(last.at, window));
    assert forall from, to :: CountWithin(grants, from, to) == Admitted(l, front, key, from, to);
  }

  // The admitted calls of a key, sorted into its windows.
  lemma {:induction false} Windowed(l: Limits, calls: seq<Call>, key: string, now: int)
    returns (starts: seq<int>, grants: seq<Grant>)
    requires !l.Off() && Ordered(calls) && forall i | 0 <= i < |calls| :: calls[i].at <= now
    ensures Tracked(CellOf(After(l, calls), key), starts, grants, l.window, l.max, now)
    ensures Accounts(l, calls, key, grants)
  {
    if calls == [] {
      return [], [];
    }
    var front, last := calls[..|calls| - 1], calls[|calls| - 1];
    starts, grants := Windowed(l, front, key, last.at);
    var b := After(l, front);
    var before, prior, window: nat := starts, grants, 0;
    if last.key == key && Admits(l, calls) {
      starts := NextStarts(CellOf(b, key), starts, last.at);
      AdmissionTracked(l, b, last, before, grants);
      window := |starts| - 1;
      grants := grants + [Grant(last.at, window)];
    }
    AccountsMore(l, calls, key, prior, window);
    Idle(CellOf(After(l, calls), key), starts, grants, l.window, l.max, last.at, now);
  }

  lemma {:induction false} AdmissionTracked(l: Limits, b: Buckets, call: Call, starts: seq<int>, grants: seq<Grant>)
    requires !l.Off() && Serve(l, b, call).1
    requires Tracked(CellOf(b, call.key), starts, grants, l.window, l.max, call.at)
    ensures
      var next := NextStarts(CellOf(b, call.key), starts, call.at);
      Tracked(CellOf(Serve(l, b, call).0, call.key), next, grants + [Grant(call.at, |next| - 1)], l.window, l.max, call.at)
  {
    var cell := CellOf(b, call.key);
    AnyHitTracked(cell, starts, grants, l.window, l.max, call.at, true);
    if !(cell.Some? && cell.value.Live(call.at)) {
      var next := NextStarts(cell, starts, call.at);
      ArmTracked(Cell(1, None), next, grants + [Grant(call.at, |next| - 1)], l.window, l.max, call.at, call.at, l.window);
    }
  }

  // Any closed interval of one window length holds at most 2 * max admitted calls per key.
  lemma {:induction false} SlidingBoundHolds(l: Limits, calls: seq<Call>, key: string, from: int)
    requires !l.Off() && Ordered(calls)
    ensures Admitted(l, calls, key, from, from + l.window) <= 2 * l.max
  {
    var starts, grants := Windowed(l, calls, key, if calls == [] then 0 else calls[|calls| - 1].at);
    SlidingBound(starts, grants, l.window, l.max, from);
    assert CountWithin(grants, from, from + l.window) == Admitted(l, calls, key, from, from + l.window);
  }

  function TwoBurstsLeave(l: Limits, n: nat): Buckets {
    if n == 0 then map[]
    else map["k" := if n <= l.max then Bucket(n, l.window) else Bucket(n - l.max, l.window + l.window)]
  }

  lemma BurstServed(l: Limits, n: nat)
    requires !l.Off() && n < 2 * l.max
    ensures Serve(l, TwoBurstsLeave(l, n), Call("k", if n < l.max then 0 else l.window)) ==
            (TwoBurstsLeave(l, n + 1), true)
  {
    var call := Call("k", if n < l.max then 0 else l.window);
    var b, c := TwoBurstsLeave(l, n), TwoBurstsLeave(l, n + 1);
    assert b["k" := c["k"]] == c;
    assert n > 0 ==> b["k"] == if n <= l.max then Bucket(n, l.window) else Bucket(n - l.max, l.window + l.window);
  }

  lemma OneMoreCall(l: Limits, front: seq<Call>, b: Buckets, last: Call, c: Buckets, to: int)
    requires After(l, front) == b && Serve(l, b, last) == (c, true) && 0 <= last.at <= to
    ensures After(l, front + [last]) == c
    ensures Admitted(l, front + [last], last.key, 0, to) == Admitted(l, front, last.key, 0, to) + 1
  {
    assert (front + [last])[..|front|] == front;
  }

  // max calls at time 0 and as many when their window is over: all are admitted.
  lemma {:induction false} TwoBursts(l: Limits, n: nat) returns (calls: seq<Call>)
    requires !l.Off() && n <= 2 * l.max
    ensures |calls| == n && forall i | 0 <= i < n :: calls[i] == Call("k", if i < l.max then 0 else l.window)
    ensures After(l, calls) == TwoBurstsLeave(l, n)
    ensures Admitted(l, calls, "k", 0, l.window) == n
  {
    if n == 0 {
      return [];
    }
    var front := TwoBursts(l, n - 1);
    var last := Call("k", if n <= l.max then 0 else l.window);
    BurstServed(l, n - 1);
    OneMoreCall(l, front, TwoBurstsLeave(l, n - 1), last, TwoBurstsLeave(l, n), l.window);
    calls := front + [last];
  }

  // The bound is attained, whatever the limits.
  lemma SlidingBoundTight(l: Limits)
    requires !l.Off()
    ensures exists calls :: Ordered(calls) && Admitted(l, calls, "k", 0, l.window) == 2 * l.max
  {
    var calls := TwoBursts(l, 2 * l.max);
    assert Ordered(calls);
  }

  // The counter of a live window is backed by admitted calls made within it.
  lemma {:induction false} CountBacked(l: Limits, calls: seq<Call>, key: string, now: int)
    requires !l.Off() && Ordered(calls) && forall i | 0 <= i < |calls| :: calls[i].at <= now
    requires key in After(l, calls)
    ensures
      var bucket := After(l, calls)[key];
      && bucket.windowEnd - l.window <= now
      && bucket.count <= l.max
      && Admitted(l, calls, key, bucket.windowEnd - l.window, now) >= bucket.count
    decreases |calls|
  {
    var front, last := calls[..|calls| - 1], calls[|calls| - 1];
    var b := After(l, front);
    if key in b {
      CountBacked(l, front, key, last.at);
      AdmittedGrows(l, front, key, b[key].windowEnd - l.window, last.at, now);
    }
  }

  lemma {:induction false} AdmittedGrows(l: Limits, calls: seq<Call>, key: string, from: int, to: int, later: int)
    requires to <= later
    ensures Admitted(l, calls, key, from, to) <= Admitted(l, calls, key, from, later)
  {
    if calls != [] {
      AdmittedGrows(l, calls[..|calls| - 1], key, from, to, later);
    }
  }

  // A call is denied only in a live window that already admitted max calls.
  lemma {:induction false} DenialJustified(l: Limits, calls: seq<Call>)
    requires calls != [] && Ordered(calls) && !Admits(l, calls)
    ensures
      var front, last := calls[..|calls| - 1], calls[|calls| - 1];
      && !l.Off() && last.key in After(l, front)
      && var start := After(l, front)[last.key].windowEnd - l.window;
         start <= last.at < start + l.window && Admitted(l, front, last.key, start, last.at) >= l.max
  {
    var front, last := calls[..|calls| - 1], calls[|calls| - 1];
    CountBacked(l, front, last.key, last.at);
  }
}

module RedisLimiting {
  import opened Options
  import opened Windows
  import opened MemoryLimiting

  type Cells = map<string, Cell>

  // INCR: an expired or absent key starts at 1 and has no expiry; the reply is the new value.
  function Incr(cells: Cells, key: string, at: int): (Cells, nat) {
    if key in cells && cells[key].Live(at)
    then (cells[key := cells[key].(count := cells[key].count + 1)], cells[key].count + 1)
    else (cells[key := Cell(1, None)], 1)
  }

  const MILLISECOND := 1_000_000

  // Duration.Milliseconds, scaled back: what is left of the window.
  function Grain(l: Limits): int {
    l.window / MILLISECOND * MILLISECOND
  }

  // PEXPIRE: no effect without the key; a non-positive time deletes it.
  function Pexpire(cells: Cells, key: string, at: int, length: int): Cells {
    if !(key in cells && cells[key].Live(at)) then cells
    else if length <= 0 then cells - {key}
    else cells[key := cells[key].(end := Some(at + length))]
  }

  datatype Command = Hit(key: string, at: int) | Arm(key: string, at: int)

  function Execute(l: Limits, cells: Cells, c: Command): Cells {
    match c
    case Hit(key, at) => Incr(cells, key, at).0
    case Arm(key, at) => Pexpire(cells, key, at, Grain(l))
  }

  function CellsAfter(l: Limits, commands: seq<Command>): Cells {
    if commands == [] then map[]
    else Execute(l, CellsAfter(l, commands[..|commands| - 1]), commands[|commands| - 1])
  }

  predicate CommandsOrdered(commands: seq<Command>) {
    forall i, j | 0 <= i < j < |commands| :: commands[i].at <= commands[j].at
  }

  // How many INCRs of the key answered at most max at times from..to.
  function HitsWithin(l: Limits, commands: seq<Command>, key: string, from: int, to: int): nat {
    if commands == [] then 0
    else
      var front, last := commands[..|commands| - 1], commands[|commands| - 1];
      HitsWithin(l, front, key, from, to)
      + (if last.Hit? && last.key == key && from <= last.at <= to
            && Incr(CellsAfter(l, front), key, last.at).1 <= l.max then 1 else 0)
  }

  function Lookup(cells: Cells, key: string): Option<Cell> {
    if key in cells then Some(cells[key]) else None
  }

  // These grants are the INCRs of the key answered within max.
  ghost predicate Grants(l: Limits, commands: seq<Command>, key: string, grants: seq<Grant>) {
    forall from, to :: CountWithin(grants, from, to) == HitsWithin(l, commands, key, from, to)
  }

  predicate GrantedLast(l: Limits, commands: seq<Command>, key: string)
    requires commands != []
  {
    var front, last := commands[..|commands| - 1], commands[|commands| - 1];
    last.Hit? && last.key == key && Incr(CellsAfter(l, front), key, last.at).1 <= l.max
  }

  lemma GrantsMore(l: Limits, commands: seq<Command>, key: string, grants: seq<Grant>, window: nat)
    requires !l.Off() && commands != [] && Grants(l, commands[..|commands| - 1], key, grants)
    ensures
      var g := Grant(commands[|commands| - 1].at, window);
      Grants(l, commands, key, if GrantedLast(l, commands, key) then grants + [g] else grants)
  {
    var front, last := commands[..|commands| - 1], commands[|commands| - 1];
    CountWithinMore(grants, Grant(last.at, window));
    assert forall from, to :: CountWithin(grants, from, to) == HitsWithin(l, front, key, from, to);
  }

  lemma CommandTracked(l: Limits, cells: Cells, c: Command, starts: seq<int>, grants: seq<Grant>)
    requires !l.Off() && Grain(l) > 0
    requires Tracked(Lookup(cells, c.key), starts, grants, Grain(l), l.max, c.at)
    ensures
      var after, next := Lookup(Execute(l, cells, c), c.key), NextStarts(Lookup(cells, c.key), starts, c.at);
      if c.Arm? then Tracked(after, starts, grants, Grain(l), l.max, c.at)
      else |next| > 0 && Tracked(after, next,
             if Incr(cells, c.key, c.at).1 <= l.max then grants + [Grant(c.at, |next| - 1)] else grants,
             Grain(l), l.max, c.at)
  {
    var cell := Lookup(cells, c.key);
    if c.Hit? {
      AnyHitTracked(cell, starts, grants, Grain(l), l.max, c.at, Incr(cells, c.key, c.at).1 <= l.max);
    } else if cell.Some? && cell.value.Live(c.at) {
      ArmTracked(cell.value, starts, grants, Grain(l), l.max, c.at, c.at, Grain(l));
    }
  }

  // However many clients interleave their INCRs and PEXPIREs, and whichever PEXPIREs are lost or
  // late, the INCRs a key answers within max sort into windows of at most max each.
  lemma {:induction false} CommandsWindowed(l: Limits, commands: seq<Command>, key: string, now: int)
    returns (starts: seq<int>, grants: seq<Grant>)
    requires !l.Off() && Grain(l) > 0 && CommandsOrdered(commands)
    requires forall i | 0 <= i < |commands| :: commands[i].at <= now
    ensures Tracked(Lookup(CellsAfter(l, commands), key), starts, grants, Grain(l), l.max, now)
    ensures Grants(l, commands, key, grants)
  {
    if commands == [] {
      return [], [];
    }
    var front, last := commands[..|commands| - 1], commands[|commands| - 1];
    starts, grants := CommandsWindowed(l, front, key, last.at);
    var cells, prior, window: nat := CellsAfter(l, front), grants, 0;
    if last.key == key {
      CommandTracked(l, cells, last, starts, grants);
      if last.Hit? {
        starts := NextStarts(Lookup(cells, key), starts, last.at);
        window := |starts| - 1;
      }
      if GrantedLast(l, commands, key) { grants := grants + [Grant(last.at, window)]; }
    }
    GrantsMore(l, commands, key, prior, window);
    Windows.Idle(Lookup(CellsAfter(l, commands), key), starts, grants, Grain(l), l.max, last.at, now);
  }

  // The same over m windows, rounded down to milliseconds.
  lemma RedisSpanBound(l: Limits, commands: seq<Command>, key: string, from: int, m: nat)
    requires !l.Off() && Grain(l) > 0 && CommandsOrdered(commands)
    ensures HitsWithin(l, commands, key, from, from + m * Grain(l)) <= (m + 1) * l.max
  {
    var starts, grants := CommandsWindowed(l, commands, key, if commands == [] then 0 else commands[|commands| - 1].at);
    SpanBound(starts, grants, Grain(l), l.max, from, m);
    assert CountWithin(grants, from, from + m * Grain(l)) == HitsWithin(l, commands, key, from, from + m * Grain(l));
  }

  lemma RedisSlidingBound(l: Limits, commands: seq<Command>, key: string, from: int)
    requires !l.Off() && Grain(l) > 0 && CommandsOrdered(commands)
    ensures HitsWithin(l, commands, key, from, from + Grain(l)) <= 2 * l.max
  {
    RedisSpanBound(l, commands, key, from, 1);
  }

  lemma {:induction false} HitsGrow(l: Limits, commands: seq<Command>, key: string, from: int, to: int, later: int)
    requires to <= later
    ensures HitsWithin(l, commands, key, from, to) <= HitsWithin(l, commands, key, from, later)
  {
    if commands != [] { HitsGrow(l, commands[..|commands| - 1], key, from, to, later); }
  }

  // ---- Between two expiries -------------------------------------------------------------------

  // The i-th command starts the key's counter anew: the key was absent or expired.
  predicate Opens(l: Limits, commands: seq<Command>, key: string, i: nat) {
    && i < |commands| && commands[i] == Hit(key, commands[i].at)
    && Incr(CellsAfter(l, commands[..i]), key, commands[i].at).1 == 1
  }

  // The INCRs of the key from the i-th command on, and those of them answered within max.
  function HitsFrom(commands: seq<Command>, key: string, i: nat): nat {
    if |commands| <= i then 0
    else
      var last := commands[|commands| - 1];
      HitsFrom(commands[..|commands| - 1], key, i) + if last.Hit? && last.key == key then 1 else 0
  }

  function AcceptedFrom(l: Limits, commands: seq<Command>, key: string, i: nat): nat {
    if |commands| <= i then 0
    else AcceptedFrom(l, commands[..|commands| - 1], key, i) + if GrantedLast(l, commands, key) then 1 else 0
  }

  // The counter was started by the i-th command and not again since.
  ghost predicate Counting(l: Limits, commands: seq<Command>, key: string, i: nat) {
    Opens(l, commands, key, i) && forall k: nat | i < k :: !Opens(l, commands, key, k)
  }

  predicate Armed(commands: seq<Command>, key: string, i: nat, m: nat) {
    i < m < |commands| && commands[m] == Arm(key, commands[m].at)
  }

  ghost predicate ArmedSince(l: Limits, commands: seq<Command>, key: string, i: nat, end: int) {
    exists m: nat :: Armed(commands, key, i, m) && commands[m].at + Grain(l) == end
  }

  // What the server holds for the key since: all its INCRs are counted, and an expiry is one that a
  // PEXPIRE since set.
  ghost predicate Kept(l: Limits, commands: seq<Command>, key: string, i: nat) {
    match Lookup(CellsAfter(l, commands), key)
    case None => Grain(l) <= 0 && exists m: nat :: Armed(commands, key, i, m)
    case Some(cell) =>
      && cell.count == HitsFrom(commands, key, i) > 0
      && (cell.end.Some? ==> ArmedSince(l, commands, key, i, cell.end.value))
  }

  lemma CountingBefore(l: Limits, commands: seq<Command>, key: string, i: nat)
    requires Counting(l, commands, key, i) && |commands| > i + 1
    ensures Counting(l, commands[..|commands| - 1], key, i)
  {
    var front := commands[..|commands| - 1];
    assert front[..i] == commands[..i];
    forall k: nat | i < k ensures !Opens(l, front, key, k) {
      if k < |front| {
        assert front[..k] == commands[..k] && !Opens(l, commands, key, k);
      }
    }
  }

  lemma ArmedLonger(l: Limits, commands: seq<Command>, key: string, i: nat, c: Command)
    ensures forall end | ArmedSince(l, commands, key, i, end) :: ArmedSince(l, commands + [c], key, i, end)
    ensures (exists m: nat :: Armed(commands, key, i, m)) ==> exists m: nat :: Armed(commands + [c], key, i, m)
    ensures c == Arm(key, c.at) && i < |commands| ==>
              Armed(commands + [c], key, i, |commands|) && ArmedSince(l, commands + [c], key, i, c.at + Grain(l))
  {
    var longer := commands + [c];
    forall end | ArmedSince(l, commands, key, i, end) ensures ArmedSince(l, longer, key, i, end) {
      var m: nat :| Armed(commands, key, i, m) && commands[m].at + Grain(l) == end;
      assert Armed(longer, key, i, m) && longer[m] == commands[m];
    }
    if m: nat :| Armed(commands, key, i, m) {
      assert Armed(longer, key, i, m);
    }
    if c == Arm(key, c.at) && i < |commands| {
      assert Armed(longer, key, i, |commands|);
    }
  }

  lemma {:induction false} CountsPositive(l: Limits, commands: seq<Command>, key: string)
    ensures key in CellsAfter(l, commands) ==> CellsAfter(l, commands)[key].count > 0
  {
    if commands != [] { CountsPositive(l, commands[..|commands| - 1], key); }
  }

  lemma {:induction false} SinceOpened(l: Limits, commands: seq<Command>, key: string, i: nat)
    requires !l.Off() && Counting(l, commands, key, i)
    ensures Kept(l, commands, key, i)
    ensures AcceptedFrom(l, commands, key, i) == Min(HitsFrom(commands, key, i), l.max)
    decreases |commands|
  {
    var n := |commands| - 1;
    var front, last := commands[..n], commands[n];
    if n == i {
      assert HitsFrom(front, key, i) == 0 && AcceptedFrom(l, front, key, i) == 0;
      CountsPositive(l, front, key);
    } else {
      CountingBefore(l, commands, key, i);
      SinceOpened(l, front, key, i);
      assert commands == front + [last];
      ArmedLonger(l, front, key, i, last);
      assert !Opens(l, commands, key, n);
      KeptStep(l, front, key, i, last);
    }
  }

  lemma KeptStep(l: Limits, front: seq<Command>, key: string, i: nat, c: Command)
    requires !l.Off() && Kept(l, front, key, i) && i < |front|
    requires c == Hit(key, c.at) ==> Incr(CellsAfter(l, front), key, c.at).1 != 1
    ensures Kept(l, front + [c], key, i)
    ensures HitsFrom(front + [c], key, i) == HitsFrom(front, key, i) + if c == Hit(key, c.at) then 1 else 0
    ensures GrantedLast(l, front + [c], key) <==> c == Hit(key, c.at) && HitsFrom(front, key, i) + 1 <= l.max
  {
    ArmedLonger(l, front, key, i, c);
    assert (front + [c])[..|front|] == front;
  }

  // However the clients interleave and whatever PEXPIREs are lost: of the INCRs of a key from one
  // that starts its counter until the next that does, exactly the first max are accepted.
  lemma BetweenExpiries(l: Limits, commands: seq<Command>, key: string, i: nat)
    requires !l.Off() && Counting(l, commands, key, i)
    ensures AcceptedFrom(l, commands, key, i) == Min(HitsFrom(commands, key, i), l.max) <= l.max
  {
    SinceOpened(l, commands, key, i);
  }

  // A counter the server holds was started by some command, and not again since.
  lemma {:induction false} CountingSome(l: Limits, commands: seq<Command>, key: string) returns (i: nat)
    requires key in CellsAfter(l, commands)
    ensures Counting(l, commands, key, i)
    decreases |commands|
  {
    var n := |commands| - 1;
    var front := commands[..n];
    if Opens(l, commands, key, n) {
      i := n;
    } else {
      CountsPositive(l, front, key);
      i := CountingSome(l, front, key);
      StillCounting(l, commands, key, i);
    }
  }

  lemma StillCounting(l: Limits, commands: seq<Command>, key: string, i: nat)
    requires commands != [] && Counting(l, commands[..|commands| - 1], key, i) && !Opens(l, commands, key, |commands| - 1)
    ensures Counting(l, commands, key, i)
  {
    var front := commands[..|commands| - 1];
    assert front[..i] == commands[..i];
    forall k: nat | i < k ensures !Opens(l, commands, key, k) {
      if k < |front| {
        assert front[..k] == commands[..k] && !Opens(l, front, key, k);
      }
    }
  }

  // An INCR is refused only after max INCRs of its key were accepted since its counter was started.
  lemma RedisDenialJustified(l: Limits, commands: seq<Command>, key: string) returns (i: nat)
    requires !l.Off() && commands != []
    requires
      var front, last := commands[..|commands| - 1], commands[|commands| - 1];
      last == Hit(key, last.at) && Incr(CellsAfter(l, front), key, last.at).1 > l.max
    ensures Counting(l, commands, key, i) && i < |commands| - 1
    ensures AcceptedFrom(l, commands[..|commands| - 1], key, i) == l.max
  {
    var n := |commands| - 1;
    var front := commands[..n];
    i := CountingSome(l, front, key);
    SinceOpened(l, front, key, i);
    StillCounting(l, commands, key, i);
  }

  // The counter is started again only after an expiry: some PEXPIRE since set one that was over.
  lemma ReopenedExpired(l: Limits, commands: seq<Command>, key: string, i: nat, k: nat) returns (m: nat)
    requires !l.Off() && CommandsOrdered(commands) && i < k < |commands|
    requires Counting(l, commands[..k], key, i) && Opens(l, commands, key, k)
    ensures m < k && Armed(commands, key, i, m) && commands[m].at + Grain(l) <= commands[k].at
  {
    var before := commands[..k];
    SinceOpened(l, before, key, i);
    match Lookup(CellsAfter(l, before), key) {
      case None =>
        m :| Armed(before, key, i, m);
      case Some(cell) =>
        m :| Armed(before, key, i, m) && before[m].at + Grain(l) == cell.end.value;
    }
  }

  // A counter whose PEXPIRE was lost never starts again: it admits max calls for good.
  lemma {:induction false} LostExpiry(l: Limits, commands: seq<Command>, key: string, i: nat)
    requires !l.Off() && CommandsOrdered(commands) && Opens(l, commands, key, i)
    requires forall m: nat :: !Armed(commands, key, i, m)
    ensures Counting(l, commands, key, i)
    ensures AcceptedFrom(l, commands, key, i) == Min(HitsFrom(commands, key, i), l.max) <= l.max
    decreases |commands|
  {
    var n := |commands| - 1;
    if n > i {
      var front := commands[..n];
      assert front[..i] == commands[..i];
      forall m: nat ensures !Armed(front, key, i, m) {
        assert !Armed(commands, key, i, m);
      }
      LostExpiry(l, front, key, i);
      if Opens(l, commands, key, n) {
        var m := ReopenedExpired(l, commands, key, i, n);
      }
      forall k: nat | i < k ensures !Opens(l, commands, key, k) {
        if k < n {
          assert front[..k] == commands[..k] && !Opens(l, front, key, k);
        }
      }
    }
    BetweenExpiries(l, commands, key, i);
  }

  // ---- One client without errors ----------------------------------------------------------------

  function ServeRedis(l: Limits, cells: Cells, call: Call): (Cells, bool) {
    if l.Off() then (cells, true)
    else
      var (counted, n) := Incr(cells, call.key, call.at);
      (if n == 1 then Pexpire(counted, call.key, call.at, Grain(l)) else counted, n <= l.max)
  }

  function RedisAfter(l: Limits, calls: seq<Call>): Cells {
    if calls == [] then map[] else ServeRedis(l, RedisAfter(l, calls[..|calls| - 1]), calls[|calls| - 1]).0
  }

  predicate RedisAdmits(l: Limits, calls: seq<Call>)
    requires calls != []
  {
    ServeRedis(l, RedisAfter(l, calls[..|calls| - 1]), calls[|calls| - 1]).1
  }

  // Both limiters hold the same windows; Redis goes on counting beyond max.
  ghost predicate Simulates(l: Limits, b: Buckets, cells: Cells) {
    forall key ::
      && (key in b <==> key in cells)
      && (key in b ==>
            cells[key].end == Some(b[key].windowEnd) && 0 < cells[key].count && b[key].count == Min(cells[key].count, l.max))
  }

  lemma StepSimulates(l: Limits, b: Buckets, cells: Cells, call: Call)
    requires !l.Off() && Grain(l) == l.window && Simulates(l, b, cells)
    ensures Simulates(l, Serve(l, b, call).0, ServeRedis(l, cells, call).0)
    ensures Serve(l, b, call).1 == ServeRedis(l, cells, call).1
  {
    assert call.key in b <==> call.key in cells;
  }

  lemma {:induction false} SameDecisions(l: Limits, calls: seq<Call>)
    requires !l.Off() && l.window % MILLISECOND == 0
    ensures Simulates(l, After(l, calls), RedisAfter(l, calls))
    ensures calls != [] ==> Admits(l, calls) == RedisAdmits(l, calls)
  {
    if calls != [] {
      SameDecisions(l, calls[..|calls| - 1]);
      GrainBelow(l);
      StepSimulates(l, After(l, calls[..|calls| - 1]), RedisAfter(l, calls[..|calls| - 1]), calls[|calls| - 1]);
    }
  }

  // n calls with one key at time 0.
  function Burst(n: nat): seq<Call> {
    if n == 0 then [] else Burst(n - 1) + [Call("k", 0)]
  }

  function BurstCells(l: Limits, n: nat): Cells {
    if n > 0 && Grain(l) > 0 then map["k" := Cell(n, Some(Grain(l)))] else map[]
  }

  function BurstBuckets(l: Limits, n: nat): Buckets {
    if n > 0 then map["k" := Bucket(n, l.window)] else map[]
  }

  lemma {:induction false} BurstShape(n: nat)
    ensures |Burst(n)| == n && forall call | call in Burst(n) :: call == Call("k", 0)
  {
    if n > 0 {
      BurstShape(n - 1);
    }
  }

  lemma BurstServed(l: Limits, n: nat)
    requires !l.Off() && n < l.max
    ensures Serve(l, BurstBuckets(l, n), Call("k", 0)).0 == BurstBuckets(l, n + 1)
  {
  }

  lemma BurstCounted(l: Limits, n: nat)
    requires !l.Off() && n < l.max
    ensures ServeRedis(l, BurstCells(l, n), Call("k", 0)).0 == BurstCells(l, n + 1)
  {
    GrainBelow(l);
    var (counted, m) := Incr(BurstCells(l, n), "k", 0);
    if Grain(l) > 0 {
      assert m == n + 1;
    } else {
      assert counted - {"k"} == map[];
    }
  }

  // One call more after a run.
  lemma OneCallMore(l: Limits, calls: seq<Call>, call: Call)
    ensures After(l, calls + [call]) == Serve(l, After(l, calls), call).0
    ensures RedisAfter(l, calls + [call]) == ServeRedis(l, RedisAfter(l, calls), call).0
  {
    assert (calls + [call])[..|calls + [call]| - 1] == calls;
  }

  lemma {:induction false} BurstInMemory(l: Limits, n: nat)
    requires !l.Off() && n <= l.max
    ensures After(l, Burst(n)) == BurstBuckets(l, n)
  {
    if n > 0 {
      BurstInMemory(l, n - 1);
      OneCallMore(l, Burst(n - 1), Call("k", 0));
      BurstServed(l, n - 1);
    }
  }

  lemma {:induction false} BurstInRedis(l: Limits, n: nat)
    requires !l.Off() && n <= l.max
    ensures RedisAfter(l, Burst(n)) == BurstCells(l, n)
  {
    if n > 0 {
      BurstInRedis(l, n - 1);
      OneCallMore(l, Burst(n - 1), Call("k", 0));
      BurstCounted(l, n - 1);
    }
  }

  lemma GrainBelow(l: Limits)
    requires !l.Off()
    ensures 0 <= Grain(l) <= l.window && (Grain(l) == l.window <==> l.window % MILLISECOND == 0)
  {
  }

  // A window that is not a whole number of milliseconds: after max calls at time 0, Redis has
  // dropped the key when the truncated window is over, and admits what the memory limiter denies.
  lemma TruncationDisagrees(l: Limits) returns (calls: seq<Call>)
    requires !l.Off() && l.window % MILLISECOND != 0
    ensures calls != [] && Ordered(calls) && !Admits(l, calls) && RedisAdmits(l, calls)
  {
    var late := Call("k", Grain(l));
    calls := Burst(l.max) + [late];
    GrainBelow(l);
    BurstOrdered(l.max, late);
    assert calls[..|calls| - 1] == Burst(l.max);
    BurstInMemory(l, l.max);
    BurstInRedis(l, l.max);
    LateCall(l, late);
  }

  lemma BurstOrdered(n: nat, late: Call)
    requires 0 <= late.at
    ensures Ordered(Burst(n) + [late])
  {
    BurstShape(n);
    forall i | 0 <= i < n ensures Burst(n)[i].at == 0 {
      assert Burst(n)[i] in Burst(n);
    }
  }

  lemma LateCall(l: Limits, late: Call)
    requires !l.Off() && l.window % MILLISECOND != 0 && late == Call("k", Grain(l))
    ensures !Serve(l, BurstBuckets(l, l.max), late).1 && ServeRedis(l, BurstCells(l, l.max), late).1
  {
    GrainBelow(l);
  }

  // A window shorter than a millisecond limits nothing: PEXPIRE 0 removes the counter at once.
  lemma {:induction false} NothingLimited(l: Limits, calls: seq<Call>)
    requires !l.Off() && l.window < MILLISECOND
    ensures RedisAfter(l, calls) == map[] && (calls != [] ==> RedisAdmits(l, calls))
  {
    if calls != [] {
      var front, last := calls[..|calls| - 1], calls[|calls| - 1];
      NothingLimited(l, front);
      var counted := Incr(map[], last.key, last.at).0;
      assert counted - {last.key} == map[];
    }
  }

  // The two limiters decide alike on every ordered run exactly if the window is whole milliseconds.
  lemma AgreementExact(l: Limits)
    requires !l.Off()
    ensures (forall calls | calls != [] && Ordered(calls) :: Admits(l, calls) == RedisAdmits(l, calls))
            <==> l.window % MILLISECOND == 0
  {
    if l.window % MILLISECOND == 0 {
      forall calls | calls != [] && Ordered(calls) ensures Admits(l, calls) == RedisAdmits(l, calls) {
        SameDecisions(l, calls);
      }
    } else {
      var calls := TruncationDisagrees(l);
    }
  }

  // ---- Clients that fail ------------------------------------------------------------------------

  // What happens to one call: it may not reach Redis, lose the answer of its INCR, or fail at its
  // PEXPIRE, which may still have taken effect.
  datatype Outcome = Served | Unreached | IncrLost | ExpireLost(applied: bool)

  // A command Redis executed, and the client that sent it.
  datatype Sent = Sent(client: nat, command: Command)

  function Commands(log: seq<Sent>): seq<Command> {
    seq(|log|, i requires 0 <= i < |log| => log[i].command)
  }

  function Own(log: seq<Sent>, me: nat): seq<Command> {
    if log == [] then []
    else
      var last := log[|log| - 1];
      Own(log[..|log| - 1], me) + if last.client == me then [last.command] else []
  }

  lemma LogMore(log: seq<Sent>, e: Sent)
    ensures Commands(log + [e]) == Commands(log) + [e.command]
    ensures forall me :: Own(log + [e], me) == Own(log, me) + if e.client == me then [e.command] else []
  {
    assert (log + [e])[..|log|] == log;
  }

  lemma CommandMore(l: Limits, commands: seq<Command>, c: Command)
    requires CommandsOrdered(commands) && forall d | d in commands :: d.at <= c.at
    ensures CellsAfter(l, commands + [c]) == Execute(l, CellsAfter(l, commands), c)
    ensures CommandsOrdered(commands + [c]) && forall d | d in commands + [c] :: d.at <= c.at
  {
    assert (commands + [c])[..|commands|] == commands;
    assert forall i | 0 <= i < |commands| :: commands[i] in commands;
  }

  // What the INCR at place i of the log answered.
  function Reply(l: Limits, log: seq<Sent>, i: nat): nat
    requires i < |log|
  {
    Incr(CellsAfter(l, Commands(log[..i])), log[i].command.key, log[i].command.at).1
  }

  // The limiter's answer to the reply of its INCR, None for an error. A PEXPIRE can only fail where
  // one is sent.
  function Answer(l: Limits, n: nat, o: Outcome): Option<bool> {
    match o
    case Served => Some(n <= l.max)
    case ExpireLost(_) => if n == 1 then None else Some(n <= l.max)
    case _ => None
  }

  // The commands a client sends for one call, given the reply n to its INCR.
  predicate SentFor(key: string, n: nat, o: Outcome, own: seq<Command>) {
    match o
    case Unreached => own == []
    case IncrLost => |own| == 1 && own[0].Hit? && own[0].key == key
    case Served =>
      && |own| == (if n == 1 then 2 else 1) && own[0].Hit? && own[0].key == key
      && (n == 1 ==> own[1].Arm? && own[1].key == key)
    case ExpireLost(applied) =>
      && |own| == (if n == 1 && applied then 2 else 1) && own[0].Hit? && own[0].key == key
      && (n == 1 && applied ==> own[1].Arm? && own[1].key == key)
  }

  // The server all clients share.
  class RedisServer {
    const limits: Limits
    var cells: Cells
    var clock: int
    ghost var log: seq<Sent>
    ghost var faults: nat       // calls that got no answer

    ghost predicate Valid()
      reads this
    {
      && cells == CellsAfter(limits, Commands(log))
      && CommandsOrdered(Commands(log)) && forall c | c in Commands(log) :: c.at <= clock
    }

    constructor (limits: Limits)
      ensures Valid() && this.limits == limits && log == [] && faults == 0
    {
      this.limits := limits;
      cells := map[];
      clock := 0;
      log := [];
      faults := 0;
    }

    method Run(me: nat, c: Command)
      requires Valid() && c.at == clock
      modifies this
      ensures Valid() && log == old(log) + [Sent(me, c)] && clock == old(clock) && faults == old(faults)
    {
      CommandMore(limits, Commands(log), c);
      LogMore(log, Sent(me, c));
      cells := Execute(limits, cells, c);
      log := log + [Sent(me, c)];
    }

    // Time passes, and other clients send any commands.
    method Others(me: nat)
      requires Valid()
      modifies this
      ensures Valid() && old(log) <= log && Own(log, me) == Own(old(log), me) && old(clock) <= clock
      ensures faults == old(faults)
    {
      var steps: nat := *;
      while steps > 0
        invariant Valid() && old(log) <= log && Own(log, me) == Own(old(log), me) && old(clock) <= clock
        invariant faults == old(faults)
      {
        steps := steps - 1;
        var later: int, who: nat, key: string, hit: bool := *, *, *, *;
        if clock <= later { clock := later; }
        if who != me {
          var c := if hit then Hit(key, clock) else Arm(key, clock);
          LogMore(log, Sent(who, c));
          Run(who, c);
        }
      }
    }

    // INCR; the reply is to the command at the end of the log.
    method Increment(me: nat, key: string) returns (n: nat)
      requires Valid()
      modifies this
      ensures Valid() && old(log) < log && log[|log| - 1] == Sent(me, Hit(key, clock))
      ensures n == Reply(limits, log, |log| - 1) && Own(log, me) == Own(old(log), me) + [Hit(key, clock)]
      ensures faults == old(faults)
    {
      Others(me);
      n := Incr(cells, key, clock).1;
      LogMore(log, Sent(me, Hit(key, clock)));
      ghost var before := log;
      Run(me, Hit(key, clock));
      assert log[..|log| - 1] == before;
    }

    method Expire(me: nat, key: string)
      requires Valid()
      modifies this
      ensures Valid() && old(log) < log && Own(log, me) == Own(old(log), me) + [Arm(key, clock)]
      ensures faults == old(faults)
    {
      Others(me);
      LogMore(log, Sent(me, Arm(key, clock)));
      Run(me, Arm(key, clock));
    }

    // redisRateLimiter.Allow, other clients running in between, against a network that fails in any
    // of the ways of Outcome: at is the place of the own INCR in the log, own what the call sent.
    method Allow(me: nat, key: string) returns (r: Option<bool>, ghost o: Outcome, ghost at: nat, ghost own: seq<Command>)
      requires Valid()
      modifies this
      ensures Valid() && old(log) <= log && Own(log, me) == Own(old(log), me) + own
      ensures if limits.Off() then r == Some(true) && log == old(log)
              else Answered(|old(log)|, me, key, r, o, at, own)
      ensures !limits.Off() && r.Some? ==> Decided(log, |old(log)|, at, me, key, r.value)
      ensures !limits.Off() && r.Some? ==>
                && own[0] == log[at].command && (|own| == 1 || (|own| == 2 && own[1].Arm? && own[1].key == key))
                && (|own| == 2 <==> Reply(limits, log, at) == 1)
      ensures faults == old(faults) + if r.None? then 1 else 0
    {
      o, at, own := Unreached, |log|, [];
      if limits.window <= 0 || limits.max <= 0 { return Some(true), o, at, own; }
      var dialed: bool := *;
      if !dialed {
        faults := faults + 1;
        return None, o, at, own;
      }
      var count := Increment(me, key);
      ghost var sent := log;
      at, own := |log| - 1, [Hit(key, clock)];
      r, o, own := Settle(me, key, count, own);
      Settled(|old(log)|, me, key, count, r, o, at, own, sent);
    }

    // An INCR of this client, at place at of the log, decided the answer: it admits exactly if the
    // reply is within max.
    ghost predicate Decided(log: seq<Sent>, from: nat, at: nat, me: nat, key: string, admits: bool) {
      && from <= at < |log| && log[at].client == me && log[at].command.Hit? && log[at].command.key == key
      && (admits <==> Reply(limits, log, at) <= limits.max)
    }

    // The reply the answer was decided by is the one in the log.
    lemma Settled(
      from: nat, me: nat, key: string, count: nat, r: Option<bool>, o: Outcome, at: nat, own: seq<Command>, sent: seq<Sent>)
      requires sent <= log && from <= at < |sent| && sent[at] == Sent(me, Hit(key, sent[at].command.at))
      requires count == Reply(limits, sent, at) && o != Unreached
      requires SentFor(key, count, o, own) && r == Answer(limits, count, o)
      ensures Answered(from, me, key, r, o, at, own)
    {
      ReplyStays(limits, sent, log, at);
    }

    // What follows the INCR.
    method Settle(me: nat, key: string, count: nat, ghost hit: seq<Command>)
      returns (r: Option<bool>, ghost o: Outcome, ghost own: seq<Command>)
      requires Valid() && |hit| == 1 && hit[0].Hit? && hit[0].key == key
      modifies this
      ensures Valid() && old(log) <= log && hit <= own
      ensures forall base :: Own(old(log), me) == base + hit ==> Own(log, me) == base + own
      ensures o != Unreached && SentFor(key, count, o, own) && r == Answer(limits, count, o)
      ensures faults == old(faults) + if r.None? then 1 else 0
    {
      own := hit;
      ghost var before := Own(log, me);
      var answered: bool := *;
      if !answered {
        faults := faults + 1;
        return None, IncrLost, own;
      }
      if count == 1 {
        var applied: bool, acknowledged: bool := *, *;
        if applied || acknowledged {
          Expire(me, key);
          own := hit + [Arm(key, clock)];
          OwnJoined(before, hit, [Arm(key, clock)]);
        }
        if !acknowledged {
          faults := faults + 1;
          return None, ExpireLost(applied), own;
        }
      }
      return Some(count <= limits.max), Served, own;
    }

    // What an answer tells: the reply to the own INCR, at place at, decides it.
    ghost predicate Answered(from: nat, me: nat, key: string, r: Option<bool>, o: Outcome, at: nat, own: seq<Command>)
      reads this
    {
      if o == Unreached then r == None && own == []
      else
        && from <= at < |log| && log[at] == Sent(me, Hit(key, log[at].command.at))
        && r == Answer(limits, Reply(limits, log, at), o)
        && SentFor(key, Reply(limits, log, at), o, own)
    }
  }

  lemma OwnJoined(before: seq<Command>, hit: seq<Command>, more: seq<Command>)
    ensures forall base :: before == base + hit ==> before + more == base + (hit + more)
  {
    forall base | before == base + hit ensures before + more == base + (hit + more) {
      assert base + hit + more == base + (hit + more);
    }
  }

  lemma ReplyStays(l: Limits, log: seq<Sent>, longer: seq<Sent>, i: nat)
    requires log <= longer && i < |log|
    ensures longer[i] == log[i] && Reply(l, longer, i) == Reply(l, log, i)
  {
    assert longer[..i] == log[..i];
  }
}

// Redis first; the memory limiter decides whenever Redis errs.
module FallbackLimiting {
  import opened Options
  import opened Windows
  import opened MemoryLimiting
  import opened RedisLimiting

  // What happened as one process sees it: a command Redis executed, for whomever, with a mark where
  // its reply let a call of this process pass, or a call handed to the memory limiter.
  datatype Deed = Ran(command: Command, passed: bool) | Recalled(call: Call)

  function RedisPart(h: seq<Deed>): seq<Command> {
    if h == [] then []
    else
      var last := h[|h| - 1];
      RedisPart(h[..|h| - 1]) + if last.Ran? then [last.command] else []
  }

  function MemoryPart(h: seq<Deed>): seq<Call> {
    if h == [] then []
    else
      var last := h[|h| - 1];
      MemoryPart(h[..|h| - 1]) + if last.Recalled? then [last.call] else []
  }

  // Calls pass on replies within max only.
  predicate PassedRightly(l: Limits, h: seq<Deed>) {
    h == [] ||
    var front, last := h[..|h| - 1], h[|h| - 1];
    && PassedRightly(l, front)
    && (last.Ran? && last.passed ==>
          last.command.Hit? && Incr(CellsAfter(l, RedisPart(front)), last.command.key, last.command.at).1 <= l.max)
  }

  // The last deed admits a call with the key, at a time from..to.
  predicate LastAdmits(l: Limits, h: seq<Deed>, key: string, from: int, to: int)
    requires h != []
  {
    match h[|h| - 1]
    case Ran(c, passed) => passed && c.key == key && from <= c.at <= to
    case Recalled(call) => call.key == key && from <= call.at <= to && Admits(l, MemoryPart(h))
  }

  function AdmittedByEither(l: Limits, h: seq<Deed>, key: string, from: int, to: int): nat {
    if h == [] then 0
    else AdmittedByEither(l, h[..|h| - 1], key, from, to) + if LastAdmits(l, h, key, from, to) then 1 else 0
  }

  lemma HitsMore(l: Limits, commands: seq<Command>, c: Command, key: string, from: int, to: int)
    ensures HitsWithin(l, commands + [c], key, from, to) ==
              HitsWithin(l, commands, key, from, to)
              + (if c.Hit? && c.key == key && from <= c.at <= to && Incr(CellsAfter(l, commands), key, c.at).1 <= l.max then 1 else 0)
  {
    assert (commands + [c])[..|commands|] == commands;
  }

  lemma CallsMore(l: Limits, calls: seq<Call>, call: Call, key: string, from: int, to: int)
    ensures Admitted(l, calls + [call], key, from, to) ==
              Admitted(l, calls, key, from, to)
              + (if call.key == key && from <= call.at <= to && Admits(l, calls + [call]) then 1 else 0)
  {
    assert (calls + [call])[..|calls|] == calls;
  }

  // One more deed.
  lemma DeedMore(l: Limits, h: seq<Deed>, d: Deed)
    ensures RedisPart(h + [d]) == RedisPart(h) + if d.Ran? then [d.command] else []
    ensures MemoryPart(h + [d]) == MemoryPart(h) + if d.Recalled? then [d.call] else []
    ensures PassedRightly(l, h + [d]) <==>
              PassedRightly(l, h) && (d.Ran? && d.passed ==>
                d.command.Hit? && Incr(CellsAfter(l, RedisPart(h)), d.command.key, d.command.at).1 <= l.max)
    ensures forall key, from, to :: AdmittedByEither(l, h + [d], key, from, to) ==
              AdmittedByEither(l, h, key, from, to) + if LastAdmits(l, h + [d], key, from, to) then 1 else 0
  {
    assert (h + [d])[..|h|] == h;
  }

  // Every admission is one limiter's.
  lemma {:induction false} EitherSplits(l: Limits, h: seq<Deed>, key: string, from: int, to: int)
    requires PassedRightly(l, h)
    ensures AdmittedByEither(l, h, key, from, to) <=
              HitsWithin(l, RedisPart(h), key, from, to) + Admitted(l, MemoryPart(h), key, from, to)
  {
    if h != [] {
      var front, last := h[..|h| - 1], h[|h| - 1];
      EitherSplits(l, front, key, from, to);
      match last {
        case Ran(c, _) =>
          HitsMore(l, RedisPart(front), c, key, from, to);
          assert MemoryPart(h) == MemoryPart(front);
        case Recalled(call) =>
          CallsMore(l, MemoryPart(front), call, key, from, to);
          assert RedisPart(h) == RedisPart(front);
      }
    }
  }

  // What Redis admits in a full window: it may round the window down, but not to half.
  lemma RedisShare(l: Limits, commands: seq<Command>, key: string, from: int)
    requires !l.Off() && l.window >= MILLISECOND && CommandsOrdered(commands)
    ensures HitsWithin(l, commands, key, from, from + l.window) <= (if l.window % MILLISECOND == 0 then 2 else 3) * l.max
  {
    GrainBelow(l);
    if l.window % MILLISECOND == 0 {
      RedisSlidingBound(l, commands, key, from);
    } else {
      assert l.window < Grain(l) + MILLISECOND && MILLISECOND <= Grain(l);
      RedisSpanBound(l, commands, key, from, 2);
      HitsGrow(l, commands, key, from, from + l.window, from + 2 * Grain(l));
    }
  }

  // Whatever fails, however the clients of all processes interleave at the server, and whatever this
  // process forwards to its memory limiter: any closed interval of one window holds at most 4 * max
  // calls of the key that the process admits, or 5 * max if Redis rounds the window. A window below a
  // millisecond limits nothing.
  lemma FallbackSlidingBound(l: Limits, h: seq<Deed>, key: string, from: int)
    requires !l.Off() && l.window >= MILLISECOND && PassedRightly(l, h)
    requires CommandsOrdered(RedisPart(h)) && Ordered(MemoryPart(h))
    ensures AdmittedByEither(l, h, key, from, from + l.window) <= (if l.window % MILLISECOND == 0 then 4 else 5) * l.max
  {
    EitherSplits(l, h, key, from, from + l.window);
    RedisShare(l, RedisPart(h), key, from);
    SlidingBoundHolds(l, MemoryPart(h), key, from);
  }

  // ---- The bound is attained ------------------------------------------------------------------

  // What Redis holds after n calls, max at time 0 and the rest when the window is over.
  function BurstsLeave(l: Limits, key: string, n: nat): Cells {
    if n == 0 then map[]
    else map[key := if n <= l.max then Cell(n, Some(Grain(l))) else Cell(n - l.max, None)]
  }

  // The n + 1st call: its INCR, and its PEXPIRE if it is the first.
  lemma NextBurst(l: Limits, key: string, n: nat, t: int)
    requires !l.Off() && l.window % MILLISECOND == 0 && n < 2 * l.max && t == (if n < l.max then 0 else l.window)
    ensures
      var (cells, reply) := Incr(BurstsLeave(l, key, n), key, t);
      reply <= l.max && BurstsLeave(l, key, n + 1) == if n == 0 then Pexpire(cells, key, 0, Grain(l)) else cells
  {
    GrainBelow(l);
    var b, c := BurstsLeave(l, key, n), BurstsLeave(l, key, n + 1);
    assert Grain(l) == l.window > 0;
    assert n > 0 ==> b[key] == if n <= l.max then Cell(n, Some(Grain(l))) else Cell(n - l.max, None);
    assert b[key := c[key]] == c;
  }

  // One more command at the end of a history.
  lemma RanMore(l: Limits, h: seq<Deed>, c: Command, passed: bool, to: int)
    requires PassedRightly(l, h) && CommandsOrdered(RedisPart(h)) && (forall d | d in RedisPart(h) :: d.at <= c.at)
    requires passed ==> c.Hit? && Incr(CellsAfter(l, RedisPart(h)), c.key, c.at).1 <= l.max
    requires 0 <= c.at <= to
    ensures
      var more := h + [Ran(c, passed)];
      && PassedRightly(l, more) && CommandsOrdered(RedisPart(more)) && (forall d | d in RedisPart(more) :: d.at <= c.at)
      && MemoryPart(more) == MemoryPart(h) && CellsAfter(l, RedisPart(more)) == Execute(l, CellsAfter(l, RedisPart(h)), c)
      && AdmittedByEither(l, more, c.key, 0, to) == AdmittedByEither(l, h, c.key, 0, to) + if passed then 1 else 0
  {
    DeedMore(l, h, Ran(c, passed));
    CommandMore(l, RedisPart(h), c);
    assert MemoryPart(h) + [] == MemoryPart(h);
  }

  // A history of n calls that Redis admits, max at time 0 and the rest when the window is over.
  ghost predicate Bursts(l: Limits, key: string, n: nat, h: seq<Deed>) {
    && PassedRightly(l, h) && CommandsOrdered(RedisPart(h)) && MemoryPart(h) == []
    && (forall d | d in RedisPart(h) :: d.at <= BurstTime(l, n))
    && CellsAfter(l, RedisPart(h)) == BurstsLeave(l, key, n)
    && AdmittedByEither(l, h, key, 0, l.window) == n
  }

  // When the n-th call is made.
  function BurstTime(l: Limits, n: nat): int { if n <= l.max then 0 else l.window }

  lemma FirstBurst(l: Limits, key: string) returns (h: seq<Deed>)
    requires !l.Off() && l.window % MILLISECOND == 0
    ensures Bursts(l, key, 1, h)
  {
    h := FirstIncr(l, key);
    FirstLeaves(l, key);
    h := ThenArm(l, key, h);
  }

  lemma FirstLeaves(l: Limits, key: string)
    requires !l.Off() && l.window % MILLISECOND == 0
    ensures Execute(l, Incr(map[], key, 0).0, Arm(key, 0)) == BurstsLeave(l, key, 1)
  {
    NextBurst(l, key, 0, 0);
  }

  lemma ThenArm(l: Limits, key: string, h: seq<Deed>) returns (armed: seq<Deed>)
    requires !l.Off() && PassedRightly(l, h) && CommandsOrdered(RedisPart(h)) && MemoryPart(h) == []
    requires forall d | d in RedisPart(h) :: d.at <= 0
    requires Execute(l, CellsAfter(l, RedisPart(h)), Arm(key, 0)) == BurstsLeave(l, key, 1)
    requires AdmittedByEither(l, h, key, 0, l.window) == 1
    ensures Bursts(l, key, 1, armed)
  {
    RanMore(l, h, Arm(key, 0), false, l.window);
    armed := h + [Ran(Arm(key, 0), false)];
  }

  lemma FirstIncr(l: Limits, key: string) returns (h: seq<Deed>)
    requires !l.Off()
    ensures PassedRightly(l, h) && CommandsOrdered(RedisPart(h)) && MemoryPart(h) == []
    ensures forall d | d in RedisPart(h) :: d.at <= 0
    ensures CellsAfter(l, RedisPart(h)) == Incr(map[], key, 0).0 && AdmittedByEither(l, h, key, 0, l.window) == 1
  {
    var none: seq<Deed> := [];
    assert PassedRightly(l, none) && RedisPart(none) == [] && MemoryPart(none) == [];
    RanMore(l, none, Hit(key, 0), true, l.window);
    h := none + [Ran(Hit(key, 0), true)];
  }

  lemma BurstMore(l: Limits, key: string, n: nat, h: seq<Deed>)
    requires !l.Off() && l.window % MILLISECOND == 0 && 0 < n < 2 * l.max && Bursts(l, key, n, h)
    ensures Bursts(l, key, n + 1, h + [Ran(Hit(key, BurstTime(l, n + 1)), true)])
  {
    var c := Hit(key, BurstTime(l, n + 1));
    NextBurst(l, key, n, c.at);
    assert forall d | d in RedisPart(h) :: d.at <= c.at;
    RanMore(l, h, c, true, l.window);
  }

  lemma {:induction false} RedisBursts(l: Limits, key: string, n: nat) returns (h: seq<Deed>)
    requires !l.Off() && l.window % MILLISECOND == 0 && 0 < n <= 2 * l.max
    ensures Bursts(l, key, n, h)
    decreases n
  {
    if n == 1 {
      h := FirstBurst(l, key);
    } else {
      h := RedisBursts(l, key, n - 1);
      BurstMore(l, key, n - 1, h);
      h := h + [Ran(Hit(key, BurstTime(l, n)), true)];
    }
  }

  lemma RecallMore(l: Limits, h: seq<Deed>, call: Call, key: string, from: int, to: int)
    ensures
      var longer := h + [Recalled(call)];
      && (PassedRightly(l, longer) <==> PassedRightly(l, h)) && RedisPart(longer) == RedisPart(h) && MemoryPart(longer) == MemoryPart(h) + [call]
      && AdmittedByEither(l, longer, key, from, to) - AdmittedByEither(l, h, key, from, to) ==
         Admitted(l, MemoryPart(h) + [call], key, from, to) - Admitted(l, MemoryPart(h), key, from, to)
  {
    DeedMore(l, h, Recalled(call));
    CallsMore(l, MemoryPart(h), call, key, from, to);
    assert RedisPart(h) + [] == RedisPart(h);
  }

  lemma {:induction false} RecallAll(l: Limits, h: seq<Deed>, calls: seq<Call>, key: string, from: int, to: int)
    returns (longer: seq<Deed>)
    requires PassedRightly(l, h) && MemoryPart(h) == []
    ensures PassedRightly(l, longer) && RedisPart(longer) == RedisPart(h) && MemoryPart(longer) == calls
    ensures AdmittedByEither(l, longer, key, from, to) == AdmittedByEither(l, h, key, from, to) + Admitted(l, calls, key, from, to)
  {
    if calls == [] {
      return h;
    }
    var front, last := calls[..|calls| - 1], calls[|calls| - 1];
    longer := RecallAll(l, h, front, key, from, to);
    RecallMore(l, longer, last, key, from, to);
    assert front + [last] == calls;
    longer := longer + [Recalled(last)];
  }

  // For all limits of whole milliseconds some history attains the bound.
  lemma FallbackSlidingBoundTight(l: Limits)
    requires !l.Off() && l.window % MILLISECOND == 0
    ensures exists h ::
      && PassedRightly(l, h) && CommandsOrdered(RedisPart(h)) && Ordered(MemoryPart(h))
      && AdmittedByEither(l, h, "k", 0, l.window) == 4 * l.max
  {
    var h := RedisBursts(l, "k", 2 * l.max);
    var calls := TwoBursts(l, 2 * l.max);
    var longer := RecallAll(l, h, calls, "k", 0, l.window);
    assert Ordered(calls);
  }

  // ---- The history one call adds to -----------------------------------------------------------

  // Commands that became known together; the one at place mark let a call pass.
  function Marks(cs: seq<Command>, mark: int): seq<Deed> {
    if cs == [] then []
    else Marks(cs[..|cs| - 1], mark) + [Ran(cs[|cs| - 1], |cs| - 1 == mark)]
  }

  predicate MarkRight(l: Limits, before: seq<Command>, cs: seq<Command>, mark: int) {
    0 <= mark < |cs| ==>
      cs[mark].Hit? && Incr(CellsAfter(l, before + cs[..mark]), cs[mark].key, cs[mark].at).1 <= l.max
  }

  lemma MarksSplit(h: seq<Deed>, cs: seq<Command>, mark: int)
    requires cs != []
    ensures h + Marks(cs, mark) == h + Marks(cs[..|cs| - 1], mark) + [Ran(cs[|cs| - 1], |cs| - 1 == mark)]
  {
  }

  lemma {:induction false} MarksParts(l: Limits, h: seq<Deed>, cs: seq<Command>, mark: int)
    ensures RedisPart(h + Marks(cs, mark)) == RedisPart(h) + cs && MemoryPart(h + Marks(cs, mark)) == MemoryPart(h)
  {
    if cs == [] {
      assert h + Marks(cs, mark) == h && RedisPart(h) + cs == RedisPart(h);
    } else {
      var front, last := cs[..|cs| - 1], cs[|cs| - 1];
      MarksParts(l, h, front, mark);
      MarksSplit(h, cs, mark);
      DeedMore(l, h + Marks(front, mark), Ran(last, |cs| - 1 == mark));
      LastApart(RedisPart(h), cs);
    }
  }

  lemma LastApart(a: seq<Command>, b: seq<Command>)
    requires b != []
    ensures a + b[..|b| - 1] + [b[|b| - 1]] == a + b
  {
  }

  lemma {:induction false} MarksRight(l: Limits, h: seq<Deed>, cs: seq<Command>, mark: int)
    requires PassedRightly(l, h) && MarkRight(l, RedisPart(h), cs, mark)
    ensures PassedRightly(l, h + Marks(cs, mark))
  {
    if cs == [] {
      assert h + Marks(cs, mark) == h;
    } else {
      var front, last := cs[..|cs| - 1], cs[|cs| - 1];
      assert 0 <= mark < |front| ==> front[..mark] == cs[..mark];
      MarksRight(l, h, front, mark);
      MarksParts(l, h, front, mark);
      MarksSplit(h, cs, mark);
      DeedMore(l, h + Marks(front, mark), Ran(last, |cs| - 1 == mark));
    }
  }

  lemma {:induction false} MarksCount(l: Limits, h: seq<Deed>, cs: seq<Command>, mark: int, key: string, from: int, to: int)
    ensures AdmittedByEither(l, h + Marks(cs, mark), key, from, to) ==
            AdmittedByEither(l, h, key, from, to)
            + if 0 <= mark < |cs| && cs[mark].key == key && from <= cs[mark].at <= to then 1 else 0
  {
    if cs == [] {
      assert h + Marks(cs, mark) == h;
    } else {
      var front, last := cs[..|cs| - 1], cs[|cs| - 1];
      MarksCount(l, h, front, mark, key, from, to);
      MarksSplit(h, cs, mark);
      DeedMore(l, h + Marks(front, mark), Ran(last, |cs| - 1 == mark));
    }
  }

  // The longer history has one more admission, of the key at time at, if ok, and no other.
  ghost predicate Accounted(l: Limits, h: seq<Deed>, longer: seq<Deed>, key: string, ok: bool, at: int) {
    forall k, from, to :: AdmittedByEither(l, longer, k, from, to) ==
      AdmittedByEither(l, h, k, from, to) + if ok && k == key && from <= at <= to then 1 else 0
  }

  lemma MarksAccounted(l: Limits, h: seq<Deed>, cs: seq<Command>, mark: int, key: string, ok: bool, at: int)
    requires ok ==> 0 <= mark < |cs| && cs[mark].key == key && cs[mark].at == at
    requires !ok ==> mark < 0
    ensures Accounted(l, h, h + Marks(cs, mark), key, ok, at)
  {
    forall k, from, to ensures AdmittedByEither(l, h + Marks(cs, mark), k, from, to) ==
      AdmittedByEither(l, h, k, from, to) + if ok && k == key && from <= at <= to then 1 else 0
    {
      MarksCount(l, h, cs, mark, k, from, to);
    }
  }

  lemma RecallAccounted(l: Limits, h: seq<Deed>, longer: seq<Deed>, call: Call)
    requires Accounted(l, h, longer, call.key, false, call.at)
    ensures
      var recalled := longer + [Recalled(call)];
      Accounted(l, h, recalled, call.key, Admits(l, MemoryPart(recalled)), call.at)
  {
    DeedMore(l, longer, Recalled(call));
  }

  // The history after the server's log became known; mark is the place of a reply that let the call
  // pass.
  function Learned(h: seq<Deed>, log: seq<Command>, mark: int): seq<Deed>
    requires RedisPart(h) <= log
  {
    h + Marks(log[|RedisPart(h)|..], mark - |RedisPart(h)|)
  }

  lemma LearnedParts(l: Limits, h: seq<Deed>, log: seq<Command>, mark: int)
    requires RedisPart(h) <= log
    ensures RedisPart(Learned(h, log, mark)) == log && MemoryPart(Learned(h, log, mark)) == MemoryPart(h)
  {
    var known := |RedisPart(h)|;
    MarksParts(l, h, log[known..], mark - known);
    assert RedisPart(h) + log[known..] == log;
  }

  lemma LearnedRight(l: Limits, h: seq<Deed>, log: seq<Command>, mark: int)
    requires PassedRightly(l, h) && RedisPart(h) <= log
    requires mark == -1 || (|RedisPart(h)| <= mark && MarkRight(l, [], log, mark))
    ensures PassedRightly(l, Learned(h, log, mark))
  {
    var known := |RedisPart(h)|;
    var cs := log[known..];
    if known <= mark < |log| {
      assert RedisPart(h) + cs[..mark - known] == [] + log[..mark];
    }
    MarksRight(l, h, cs, mark - known);
  }

  lemma LearnedAccounted(l: Limits, h: seq<Deed>, log: seq<Command>, mark: int, key: string, ok: bool, at: int)
    requires RedisPart(h) <= log
    requires if ok then |RedisPart(h)| <= mark < |log| && log[mark].key == key && log[mark].at == at else mark == -1
    ensures Accounted(l, h, Learned(h, log, mark), key, ok, at)
  {
    var known := |RedisPart(h)|;
    MarksAccounted(l, h, log[known..], mark - known, key, ok, at);
  }

  // A call forwarded to the memory limiter, which decides it.
  lemma Forwarded(l: Limits, h: seq<Deed>, longer: seq<Deed>, call: Call, at: int)
    requires PassedRightly(l, longer) && Accounted(l, h, longer, call.key, false, at)
    ensures
      var recalled := longer + [Recalled(call)];
      && PassedRightly(l, recalled) && RedisPart(recalled) == RedisPart(longer)
      && MemoryPart(recalled) == MemoryPart(longer) + [call]
      && Accounted(l, h, recalled, call.key, Serve(l, After(l, MemoryPart(longer)), call).1, call.at)
      && After(l, MemoryPart(recalled)) == Serve(l, After(l, MemoryPart(longer)), call).0
  {
    DeedMore(l, longer, Recalled(call));
    assert (MemoryPart(longer) + [call])[..|MemoryPart(longer)|] == MemoryPart(longer);
    assert Accounted(l, h, longer, call.key, false, call.at);
    RecallAccounted(l, h, longer, call);
  }

  // A reply within max is rightly taken to let its call pass.
  lemma ReplyRight(l: Limits, log: seq<Sent>, place: nat)
    requires place < |log| && log[place].command.Hit? && Reply(l, log, place) <= l.max
    ensures MarkRight(l, [], Commands(log), place)
  {
    assert Commands(log[..place]) == [] + Commands(log)[..place];
  }

  class FallbackLimiter {
    const primary: RedisServer
    const fallback: MemoryLimiter

    constructor (primary: RedisServer, fallback: MemoryLimiter)
      ensures this.primary == primary && this.fallback == fallback
    {
      this.primary, this.fallback := primary, fallback;
    }

    // The history holds what the server ran so far, or a part that other clients went beyond, and
    // all that the memory limiter was asked.
    ghost predicate Knows(h: seq<Deed>)
      reads primary, fallback
    {
      && primary.Valid() && fallback.limits == primary.limits && PassedRightly(primary.limits, h)
      && RedisPart(h) <= Commands(primary.log) && fallback.buckets == After(primary.limits, MemoryPart(h))
    }

    lemma Learn(
      from: nat, me: nat, key: string, r: Option<bool>, o: Outcome, place: nat, own: seq<Command>, h: seq<Deed>)
      returns (longer: seq<Deed>, at: int)
      requires primary.Valid() && PassedRightly(primary.limits, h)
      requires RedisPart(h) <= Commands(primary.log) && |RedisPart(h)| <= from
      requires primary.Answered(from, me, key, r, o, place, own)
      ensures PassedRightly(primary.limits, longer) && RedisPart(longer) == Commands(primary.log)
      ensures MemoryPart(longer) == MemoryPart(h)
      ensures Accounted(primary.limits, h, longer, key, r == Some(true), at)
    {
      var log, ok := Commands(primary.log), r == Some(true);
      var mark := if ok then place else -1;
      at := if ok then log[place].at else 0;
      if ok { ReplyRight(primary.limits, primary.log, place); }
      longer := Learned(h, log, mark);
      LearnedParts(primary.limits, h, log, mark);
      LearnedRight(primary.limits, h, log, mark);
      LearnedAccounted(primary.limits, h, log, mark, key, ok, at);
    }

    // fallbackRateLimiter.Allow. The memory limiter is asked exactly if Redis gave no answer. The
    // history grows by what happened at the server since and by this call, and accounts for exactly
    // the answer given.
    method Allow(me: nat, key: string, now: int, ghost h: seq<Deed>)
      returns (ok: bool, ghost longer: seq<Deed>, ghost answer: Option<bool>, ghost at: int)
      requires Knows(h)
      modifies primary, fallback
      ensures Knows(longer)
      ensures primary.limits.Off() ==> ok && longer == h
      ensures !primary.limits.Off() ==>
        && Accounted(primary.limits, h, longer, key, ok, at) && RedisPart(longer) == Commands(primary.log)
        && MemoryPart(longer) == MemoryPart(h) + (if answer.None? then [Call(key, now)] else [])
        && (answer.Some? ==> ok == answer.value)
        && (answer.Some? ==> exists place: nat :: primary.Decided(primary.log, |old(primary.log)|, place, me, key, ok))
        && primary.faults == old(primary.faults) + if answer.None? then 1 else 0
    {
      longer, at := h, now;
      var r;
      ghost var o, place, own;
      ghost var from := |primary.log|;
      r, o, place, own := primary.Allow(me, key);
      answer := r;
      if primary.limits.Off() { return true, longer, answer, at; }
      longer, at := Learn(from, me, key, r, o, place, own, h);
      if r.Some? { return r.value, longer, answer, at; }
      ghost var call := Call(key, now);
      Forwarded(primary.limits, h, longer, call, at);
      longer, at := longer + [Recalled(call)], now;
      ok := fallback.Allow(key, now);
    }
  }
}
