// runtime.Service.Reconcile: brings the instance table and the container engine back in step.

module Reconciliation {
  import opened Options
  import opened Decimal
  import opened Protocol
  import opened Safety
  import opened Interference
  import opened World

  // ---- Keys -----------------------------------------------------------------------------------

  // managedContainerKey
  function KeyOf(challenge: string, user: int): string {
    challenge + ":" + Itoa(user)
  }

  lemma KeyInjective(c1: string, u1: int, c2: string, u2: int)
    requires KeyOf(c1, u1) == KeyOf(c2, u2)
    ensures c1 == c2 && u1 == u2
  {
    var k := KeyOf(c1, u1);
    NoColon(c1, u1);
    NoColon(c2, u2);
    assert k[|c1|] == ':' && k[|c2|] == ':';
    assert |c1| == |c2|;
    assert k[..|c1|] == c1 && k[..|c2|] == c2;
    assert k[|c1| + 1..] == Itoa(u1) && k[|c2| + 1..] == Itoa(u2);
    ItoaInjective(u1, u2);
  }

  lemma NoColon(c: string, u: int)
    ensures forall i | |c| < i < |KeyOf(c, u)| :: KeyOf(c, u)[i] != ':'
  {
    forall i | |c| < i < |KeyOf(c, u)| ensures KeyOf(c, u)[i] != ':' {
      ItoaChars(u, i - |c| - 1);
      assert KeyOf(c, u)[i] == Itoa(u)[i - |c| - 1];
    }
  }

  function RowKey(row: Row): string { KeyOf(row.challenge, row.user) }

  function LabelKey(c: Container): string { KeyOf(c.challenge, c.user) }

  // The map a pass builds from the listing; of two containers with one key the later wins.
  function IndexByKey(list: seq<Managed>): map<string, Cid> {
    if list == [] then map[]
    else
      var last := list[|list| - 1];
      IndexByKey(list[..|list| - 1])[KeyOf(last.challenge, last.user) := last.cid]
  }

  method BuildIndex(list: seq<Managed>) returns (index: map<string, Cid>)
    ensures index == IndexByKey(list)
  {
    index := map[];
    var i := 0;
    while i < |list|
      invariant i <= |list| && index == IndexByKey(list[..i])
    {
      assert list[..i + 1][..i] == list[..i];
      index := index[KeyOf(list[i].challenge, list[i].user) := list[i].cid];
      i := i + 1;
    }
    assert list[..i] == list;
  }

  // Of the containers with one key the map holds the one listed last.
  lemma {:induction false} LastListedWins(front: seq<Managed>, m: Managed, rest: seq<Managed>)
    requires forall r | r in rest :: r.challenge != m.challenge || r.user != m.user
    ensures KeyOf(m.challenge, m.user) in IndexByKey(front + [m] + rest)
    ensures IndexByKey(front + [m] + rest)[KeyOf(m.challenge, m.user)] == m.cid
  {
    if rest == [] {
      assert front + [m] + rest == front + [m];
      OneMoreListed(front, m);
    } else {
      var most, last := rest[..|rest| - 1], rest[|rest| - 1];
      assert rest == most + [last];
      LastListedWins(front, m, most);
      OneMoreListed(front + [m] + most, last);
      assert front + [m] + rest == front + [m] + most + [last];
      KeysDiffer(last, m);
    }
  }

  lemma OneMoreListed(list: seq<Managed>, m: Managed)
    ensures IndexByKey(list + [m]) == IndexByKey(list)[KeyOf(m.challenge, m.user) := m.cid]
  {
    assert (list + [m])[..|list|] == list;
  }

  lemma KeysDiffer(a: Managed, b: Managed)
    requires a.challenge != b.challenge || a.user != b.user
    ensures KeyOf(a.challenge, a.user) != KeyOf(b.challenge, b.user)
  {
    if KeyOf(a.challenge, a.user) == KeyOf(b.challenge, b.user) {
      KeyInjective(a.challenge, a.user, b.challenge, b.user);
    }
  }

  // Every entry is a live container under its own key.
  ghost predicate Labelled(s: State, index: map<string, Cid>) {
    && s.alive <= s.issued.Keys
    && forall key | key in index :: index[key] in s.alive && LabelKey(s.issued[index[key]]) == key
  }

  lemma LabelledMore(s: State, index: map<string, Cid>, c: Cid)
    requires Labelled(s, index) && c in s.alive
    ensures Labelled(s, index[LabelKey(s.issued[c]) := c])
  {
  }

  lemma {:induction false} IndexSound(s: State, list: seq<Managed>)
    requires s.alive <= s.issued.Keys
    requires forall m | m in list :: m.cid in s.alive && m == ManagedOf(s, m.cid)
    ensures Labelled(s, IndexByKey(list))
  {
    if list != [] {
      var front, last := list[..|list| - 1], list[|list| - 1];
      assert list == front + [last];
      IndexSound(s, front);
      assert last in list && last == ManagedOf(s, last.cid);
      LabelledMore(s, IndexByKey(front), last.cid);
    }
  }

  lemma {:induction false} IndexComplete(list: seq<Managed>)
    ensures forall m | m in list :: KeyOf(m.challenge, m.user) in IndexByKey(list)
  {
    if list != [] {
      var front, last := list[..|list| - 1], list[|list| - 1];
      IndexComplete(front);
      assert list == front + [last];
    }
  }

  // And every live container's key is there.
  ghost predicate Indexes(s: State, index: map<string, Cid>) {
    && Labelled(s, index)
    && (forall c | c in s.alive :: LabelKey(s.issued[c]) in index)
  }

  lemma ListingIndexed(s: State, list: seq<Managed>)
    requires ListsAlive(s, list)
    ensures Indexes(s, IndexByKey(list))
  {
    IndexSound(s, list);
    IndexComplete(list);
    forall c | c in s.alive ensures LabelKey(s.issued[c]) in IndexByKey(list) {
      assert ManagedOf(s, c) in list;
    }
  }

  // ---- The pass -------------------------------------------------------------------------------

  predicate AllRetire(events: seq<Event>) { forall i | 0 <= i < |events| :: events[i].Retire? }

  predicate AllReap(events: seq<Event>) { forall i | 0 <= i < |events| :: events[i].Reap? }

  function KeysOf(items: seq<Item>): set<string> {
    set i | 0 <= i < |items| :: RowKey(items[i].row)
  }

  // Rows of the list whose container is gone.
  function GoneIds(s: State, items: seq<Item>): set<nat> {
    set i | 0 <= i < |items| && items[i].row.container !in s.alive :: items[i].id
  }

  // Rows read a moment ago: some may have been terminated since.
  predicate Snapshot(s: State, items: seq<Item>) {
    && (forall i | 0 <= i < |items| ::
          items[i].id in s.rows && items[i].row.container == s.rows[items[i].id].container)
    && (forall i, j | 0 <= i < j < |items| :: items[i].id != items[j].id)
  }

  // t is s with exactly the rows in gone terminated.
  ghost predicate OnlyRetired(s: State, t: State, gone: set<nat>) {
    && gone <= s.rows.Keys == t.rows.Keys
    && t.alive == s.alive && t.issued == s.issued
    && forall id | id in s.rows ::
         if id in gone then Settled(s.rows[id], t.rows[id]) && !t.rows[id].Active() else t.rows[id] == s.rows[id]
  }

  // Where the first loop stands after the first n rows of the list.
  ghost predicate Checking(
    p: Platform, me: Actor, start: State, base: seq<Event>, items: seq<Item>, n: nat, acts: seq<Event>)
    requires n <= |items|
    reads p
  {
    && p.Valid() && p.st.Holds(me) && Steady(p.setup, me, start, p.st)
    && Mine(p.log, me) == base + acts && AllRetire(acts)
    && (p.calm ==> OnlyRetired(start, p.st, GoneIds(start, items[..n])) && |acts| == |GoneIds(start, items[..n])|)
  }

  // Terminates a listed row whose container is gone.
  method RetireIfGone(p: Platform, me: Actor, item: Item, now: int) returns (ok: bool, gone: bool)
    requires p.Valid() && p.st.Holds(me) && item.id in p.st.rows && p.st.rows[item.id].container == item.row.container
    modifies p
    ensures p.Valid() && p.st.Holds(me) && Steady(p.setup, me, old(p.st), p.st)
    ensures old(p.log) <= p.log && Mine(p.log, me) == Mine(old(p.log), me) + (if gone then [Retire(item.id, now)] else [])
    ensures !ok ==> !gone
    ensures item.id in p.st.rows && p.st.rows[item.id].container == item.row.container
    ensures gone ==> !p.st.rows[item.id].Active() && item.row.container !in p.st.alive
    ensures ok && !gone ==> item.row.container in old(p.st).alive
    ensures p.calm && ok ==> gone == (item.row.container !in old(p.st).alive)
    ensures p.calm ==>
              && p.st.alive == old(p.st).alive && p.st.issued == old(p.st).issued
              && p.st.rows == if gone then old(p.st).rows[item.id := Retired(old(p.st).rows[item.id], now)] else old(p.st).rows
    ensures p.faults == old(p.faults) + (if ok then 0 else 1)
  {
    gone := false;
    p.Sound();
    var found := p.ContainerExists(me, item.row.container);
    if found.None? { return false, false; }
    ok := true;
    if !found.value {
      ghost var s := p.st;
      p.Sound();
      ghost var mid;
      ok, mid := p.RetireRow(me, item.id, now);
      SteadyTransitive(p.setup, me, old(p.st), s, mid);
      if ok {
        OwnStep(p.setup, me, old(p.st), mid, Retire(item.id, now));
        gone := true;
      }
    }
  }

  // What the check of a row found: its container was alive, or is gone and the row terminated.
  predicate Judged(s: State, t: State, item: Item, ok: bool, gone: bool) {
    && item.id in t.rows && t.rows[item.id].container == item.row.container
    && (gone ==> !t.rows[item.id].Active() && item.row.container !in t.alive)
    && (ok && !gone ==> item.row.container in s.alive)
  }

  predicate IsListed(items: seq<Item>, n: nat, now: int, e: Event)
    requires n <= |items|
  {
    exists i :: 0 <= i < n && e == Retire(items[i].id, now)
  }

  // The terminations of the first n rows: every row whose container was gone at the start, and only
  // rows whose container is gone now, each once.
  ghost predicate Terminated(start: State, s: State, items: seq<Item>, n: nat, now: int, acts: seq<Event>)
    requires n <= |items|
  {
    && (forall i | 0 <= i < n && items[i].row.container !in start.alive :: Retire(items[i].id, now) in acts)
    && (forall e | e in acts :: IsListed(items, n, now, e) && Finished(s, e.id))
    && (forall a, b | 0 <= a < b < |acts| :: acts[a] != acts[b])
  }

  predicate Finished(s: State, id: nat) {
    id in s.rows && !s.rows[id].Active() && s.rows[id].container !in s.alive
  }

  lemma NotListedYet(start: State, items: seq<Item>, n: nat, now: int)
    requires n < |items| && Snapshot(start, items)
    ensures !IsListed(items, n, now, Retire(items[n].id, now))
  {
  }

  lemma FinishedStays(k: Setup, me: Actor, s: State, t: State, id: nat)
    requires Core(k, s) && Later(me, s, t) && Finished(s, id)
    ensures Finished(t, id)
  {
  }

  // A container that lives was alive at the start.
  lemma AliveBefore(k: Setup, me: Actor, start: State, s: State, items: seq<Item>, n: nat)
    requires n < |items| && Snapshot(start, items) && Core(k, start) && Later(me, start, s)
    requires items[n].row.container in s.alive
    ensures items[n].row.container in start.alive
  {
  }

  lemma TerminatedMore(
    k: Setup, me: Actor, start: State, s: State, t: State, items: seq<Item>, n: nat, now: int, acts: seq<Event>, gone: bool)
    requires n < |items| && Snapshot(start, items) && Terminated(start, s, items, n, now, acts)
    requires Core(k, start) && Core(k, s) && Later(me, start, s) && Later(me, s, t)
    requires Judged(s, t, items[n], true, gone)
    ensures Terminated(start, t, items, n + 1, now, acts + if gone then [Retire(items[n].id, now)] else [])
  {
    if gone {
      OneMoreTerminated(k, me, start, s, t, items, n, now, acts);
    } else {
      AliveBefore(k, me, start, s, items, n);
      StillTerminated(k, me, start, s, t, items, n, now, acts);
      assert acts + [] == acts;
    }
  }

  lemma TerminatedStays(
    k: Setup, me: Actor, start: State, s: State, t: State, items: seq<Item>, n: nat, now: int, acts: seq<Event>)
    requires n <= |items| && Terminated(start, s, items, n, now, acts) && Core(k, s) && Later(me, s, t)
    ensures Terminated(start, t, items, n, now, acts)
  {
    forall e | e in acts ensures Finished(t, e.id) {
      assert Finished(s, e.id);
      FinishedStays(k, me, s, t, e.id);
    }
  }

  lemma StillTerminated(
    k: Setup, me: Actor, start: State, s: State, t: State, items: seq<Item>, n: nat, now: int, acts: seq<Event>)
    requires n < |items| && Terminated(start, s, items, n, now, acts) && Core(k, s) && Later(me, s, t)
    ensures forall e | e in acts :: IsListed(items, n + 1, now, e) && Finished(t, e.id)
    ensures items[n].row.container in start.alive ==> Terminated(start, t, items, n + 1, now, acts)
  {
    forall e | e in acts ensures IsListed(items, n + 1, now, e) && Finished(t, e.id) {
      assert IsListed(items, n, now, e) && Finished(s, e.id);
      FinishedStays(k, me, s, t, e.id);
    }
  }

  lemma OneMoreTerminated(
    k: Setup, me: Actor, start: State, s: State, t: State, items: seq<Item>, n: nat, now: int, acts: seq<Event>)
    requires n < |items| && Snapshot(start, items) && Terminated(start, s, items, n, now, acts)
    requires Core(k, s) && Later(me, s, t) && Finished(t, items[n].id)
    ensures Terminated(start, t, items, n + 1, now, acts + [Retire(items[n].id, now)])
  {
    var e := Retire(items[n].id, now);
    StillTerminated(k, me, start, s, t, items, n, now, acts);
    NotListedYet(start, items, n, now);
    assert e !in acts;
    assert IsListed(items, n + 1, now, e);
    assert forall i | 0 <= i < |acts| :: acts[i] in acts;
  }

  method CheckRow(
    p: Platform, me: Actor, ghost start: State, ghost base: seq<Event>, items: seq<Item>, n: nat, now: int,
    ghost acts: seq<Event>)
    returns (ok: bool, gone: bool, ghost acts': seq<Event>)
    requires n < |items| && Checking(p, me, start, base, items, n, acts)
    requires Snapshot(start, items) && start.Holds(me)
    modifies p
    ensures ok ==> Checking(p, me, start, base, items, n + 1, acts')
    ensures !ok ==> p.Valid() && p.st.Holds(me) && Mine(p.log, me) == base + acts && !gone
    ensures Steady(p.setup, me, old(p.st), p.st) && Judged(old(p.st), p.st, items[n], ok, gone)
    ensures acts' == acts + if gone then [Retire(items[n].id, now)] else []
    ensures old(p.log) <= p.log && p.faults == old(p.faults) + (if ok then 0 else 1)
  {
    ghost var s := p.st;
    ok, gone := RetireIfGone(p, me, items[n], now);
    ghost var step := if gone then [Retire(items[n].id, now)] else [];
    acts' := acts + step;
    SteadyTransitive(p.setup, me, start, s, p.st);
    Joined(base, acts, step);
    MoreRetires(acts, step);
    if p.calm && ok { CalmCheck(start, s, p.st, items, n, now, gone); }
  }

  lemma MoreRetires(acts: seq<Event>, step: seq<Event>)
    requires AllRetire(acts) && AllRetire(step)
    ensures AllRetire(acts + step)
  {
  }

  lemma CalmCheck(start: State, s: State, t: State, items: seq<Item>, n: nat, at: int, gone: bool)
    requires n < |items| && Snapshot(start, items) && OnlyRetired(start, s, GoneIds(start, items[..n]))
    requires gone == (items[n].row.container !in s.alive) && t.alive == s.alive && t.issued == s.issued
    requires t.rows == if gone then s.rows[items[n].id := Retired(s.rows[items[n].id], at)] else s.rows
    ensures OnlyRetired(start, t, GoneIds(start, items[..n + 1]))
    ensures |GoneIds(start, items[..n + 1])| == |GoneIds(start, items[..n])| + if gone then 1 else 0
  {
    GoneMore(start, items, n);
    OneMoreGone(start, s, t, GoneIds(start, items[..n]), items[n].id, at, gone);
  }

  lemma OneMoreGone(start: State, s: State, t: State, done: set<nat>, id: nat, at: int, gone: bool)
    requires OnlyRetired(start, s, done) && id in start.rows && id !in done
    requires t.alive == s.alive && t.issued == s.issued
    requires t.rows == if gone then s.rows[id := Retired(s.rows[id], at)] else s.rows
    ensures OnlyRetired(start, t, if gone then done + {id} else done)
    ensures |done + {id}| == |done| + 1
  {
  }

  lemma KeysMore(items: seq<Item>, n: nat)
    requires n < |items|
    ensures KeysOf(items[..n + 1]) == KeysOf(items[..n]) + {RowKey(items[n].row)}
  {
    var less, more := items[..n], items[..n + 1];
    forall key | key in KeysOf(less) + {RowKey(items[n].row)} ensures key in KeysOf(more) {
      if key in KeysOf(less) {
        var i :| 0 <= i < n && RowKey(less[i].row) == key;
        assert more[i] == less[i];
      } else {
        assert more[n] == items[n];
      }
    }
    forall key | key in KeysOf(more) ensures key in KeysOf(less) + {RowKey(items[n].row)} {
      var i :| 0 <= i <= n && RowKey(more[i].row) == key;
      if i < n { assert less[i] == more[i]; }
    }
  }

  lemma GoneMore(s: State, items: seq<Item>, n: nat)
    requires n < |items| && forall i, j | 0 <= i < j < |items| :: items[i].id != items[j].id
    ensures GoneIds(s, items[..n + 1]) ==
              GoneIds(s, items[..n]) + (if items[n].row.container !in s.alive then {items[n].id} else {})
    ensures items[n].id !in GoneIds(s, items[..n])
  {
    var less, more := items[..n], items[..n + 1];
    forall id | id in GoneIds(s, less) ensures id in GoneIds(s, more) {
      var i :| 0 <= i < n && less[i].row.container !in s.alive && less[i].id == id;
      assert more[i] == less[i];
    }
    if items[n].row.container !in s.alive { assert more[n] == items[n]; }
    forall id | id in GoneIds(s, more) && id != items[n].id ensures id in GoneIds(s, less) {
      var i :| 0 <= i <= n && more[i].row.container !in s.alive && more[i].id == id;
      assert less[i] == more[i];
    }
  }

  method CheckNext(
    p: Platform, me: Actor, ghost start: State, ghost base: seq<Event>, items: seq<Item>, n: nat, now: int,
    ghost acts: seq<Event>)
    returns (ok: bool, gone: bool, ghost acts': seq<Event>)
    requires n < |items| && Checking(p, me, start, base, items, n, acts)
    requires Snapshot(start, items) && start.Holds(me) && Core(p.setup, start)
    requires Terminated(start, p.st, items, n, now, acts)
    modifies p
    ensures ok ==> Checking(p, me, start, base, items, n + 1, acts') && Terminated(start, p.st, items, n + 1, now, acts')
    ensures !ok ==> p.Valid() && p.st.Holds(me) && Mine(p.log, me) == base + acts && acts' == acts
    ensures !ok ==> Steady(p.setup, me, start, p.st) && Terminated(start, p.st, items, n, now, acts)
    ensures |acts'| == |acts| + if gone then 1 else 0
    ensures old(p.log) <= p.log && p.faults == old(p.faults) + (if ok then 0 else 1)
  {
    ghost var s := p.st;
    p.Sound();
    ok, gone, acts' := CheckRow(p, me, start, base, items, n, now, acts);
    SteadyTransitive(p.setup, me, start, s, p.st);
    if ok {
      TerminatedMore(p.setup, me, start, s, p.st, items, n, now, acts, gone);
    } else {
      TerminatedStays(p.setup, me, start, s, p.st, items, n, now, acts);
    }
  }

  method RetireMissing(p: Platform, me: Actor, items: seq<Item>, now: int, index: map<string, Cid>)
    returns (ok: bool, left: map<string, Cid>, retired: nat, ghost acts: seq<Event>, ghost n: nat)
    requires p.Valid() && p.st.Holds(me) && Snapshot(p.st, items)
    modifies p
    ensures p.Valid() && p.st.Holds(me)
    ensures old(p.log) <= p.log && Mine(p.log, me) == Mine(old(p.log), me) + acts && AllRetire(acts) && retired == |acts|
    ensures Steady(p.setup, me, old(p.st), p.st)
    ensures ok && p.calm ==> OnlyRetired(old(p.st), p.st, GoneIds(old(p.st), items)) && retired == |GoneIds(old(p.st), items)|
    ensures ok ==> left == index - KeysOf(items)
    ensures n <= |items| && Terminated(old(p.st), p.st, items, n, now, acts) && (ok ==> n == |items|)
    ensures p.faults == old(p.faults) + (if ok then 0 else 1)
  {
    ghost var start, base := p.st, Mine(p.log, me);
    p.Sound();
    assert items[..0] == [];
    ok, left, retired, acts, n := RetireLoop(p, me, items, now, index, start, base);
    if ok { AllChecked(p, me, start, base, items, acts, index, left); }
  }

  method RetireLoop(
    p: Platform, me: Actor, items: seq<Item>, now: int, index: map<string, Cid>, ghost start: State, ghost base: seq<Event>)
    returns (ok: bool, left: map<string, Cid>, retired: nat, ghost acts: seq<Event>, ghost n: nat)
    requires Retiring(p, me, start, base, items, 0, now, [], index, index)
    requires Snapshot(start, items) && start.Holds(me) && Core(p.setup, start)
    modifies p
    ensures n <= |items| && retired == |acts| && (ok ==> n == |items|)
    ensures if ok then Retiring(p, me, start, base, items, n, now, acts, index, left)
            else RetiringFailed(p, me, start, base, items, n, now, acts)
    ensures old(p.log) <= p.log && p.faults == old(p.faults) + (if ok then 0 else 1)
  {
    ok, left, retired, acts, n := true, index, 0, [], 0;
    var i := 0;
    while ok && i < |items|
      invariant i <= |items| && n <= i && retired == |acts|
      invariant old(p.log) <= p.log && p.faults == old(p.faults) + if ok then 0 else 1
      invariant if ok then n == i && Retiring(p, me, start, base, items, n, now, acts, index, left)
                else RetiringFailed(p, me, start, base, items, n, now, acts)
    {
      var gone;
      ok, gone, left, acts := RetireNext(p, me, start, base, items, i, now, acts, index, left);
      i := i + 1;
      if ok { n := i; }
      if gone { retired := retired + 1; }
    }
  }

  // Where the first loop stopped at an error.
  ghost predicate RetiringFailed(
    p: Platform, me: Actor, start: State, base: seq<Event>, items: seq<Item>, n: nat, now: int, acts: seq<Event>)
    requires n <= |items|
    reads p
  {
    && p.Valid() && p.st.Holds(me) && Mine(p.log, me) == base + acts && AllRetire(acts)
    && Steady(p.setup, me, start, p.st) && Terminated(start, p.st, items, n, now, acts)
  }

  lemma AllChecked(
    p: Platform, me: Actor, start: State, base: seq<Event>, items: seq<Item>, acts: seq<Event>,
    index: map<string, Cid>, left: map<string, Cid>)
    requires Checking(p, me, start, base, items, |items|, acts) && LeftAfter(index, left, items, |items|)
    ensures left == index - KeysOf(items)
    ensures p.calm ==> OnlyRetired(start, p.st, GoneIds(start, items)) && |acts| == |GoneIds(start, items)|
  {
    assert items[..|items|] == items;
  }

  // Where the first loop stands, with what it terminated and what is left of the map.
  ghost predicate Retiring(
    p: Platform, me: Actor, start: State, base: seq<Event>, items: seq<Item>, n: nat, now: int, acts: seq<Event>,
    index: map<string, Cid>, left: map<string, Cid>)
    requires n <= |items|
    reads p
  {
    && Checking(p, me, start, base, items, n, acts) && Terminated(start, p.st, items, n, now, acts)
    && LeftAfter(index, left, items, n)
  }

  // One round of the first loop.
  method RetireNext(
    p: Platform, me: Actor, ghost start: State, ghost base: seq<Event>, items: seq<Item>, n: nat, now: int,
    ghost acts: seq<Event>, ghost index: map<string, Cid>, left: map<string, Cid>)
    returns (ok: bool, gone: bool, left': map<string, Cid>, ghost acts': seq<Event>)
    requires n < |items| && Retiring(p, me, start, base, items, n, now, acts, index, left)
    requires Snapshot(start, items) && start.Holds(me) && Core(p.setup, start)
    modifies p
    ensures ok ==> Retiring(p, me, start, base, items, n + 1, now, acts', index, left')
    ensures !ok ==> RetiringFailed(p, me, start, base, items, n, now, acts) && acts' == acts
    ensures |acts'| == |acts| + if gone then 1 else 0
    ensures old(p.log) <= p.log && p.faults == old(p.faults) + (if ok then 0 else 1)
  {
    left' := left;
    ok, gone, acts' := CheckNext(p, me, start, base, items, n, now, acts);
    if !ok { return; }
    LeftMore(index, left, items, n);
    left' := left - {RowKey(items[n].row)};
  }

  predicate LeftAfter(index: map<string, Cid>, left: map<string, Cid>, items: seq<Item>, n: nat)
    requires n <= |items|
  {
    left == index - KeysOf(items[..n])
  }

  lemma LeftMore(index: map<string, Cid>, left: map<string, Cid>, items: seq<Item>, n: nat)
    requires n < |items| && LeftAfter(index, left, items, n)
    ensures LeftAfter(index, left - {RowKey(items[n].row)}, items, n + 1)
  {
    KeysMore(items, n);
  }

  function Picked(index: map<string, Cid>, keys: set<string>): set<Cid>
    requires keys <= index.Keys
  {
    set key | key in keys :: index[key]
  }

  // The containers of all keys but these were stopped and are gone, and no others were stopped.
  predicate Removed(s: State, left: map<string, Cid>, keys: set<string>, acts: seq<Event>) {
    && (forall key | key in left && key !in keys :: Reap(left[key]) in acts)
    && (forall e | e in acts :: e.Reap? && e.orphan !in s.alive && e.orphan in s.issued && ReapedFor(left, keys, e))
  }

  predicate ReapedFor(left: map<string, Cid>, keys: set<string>, e: Event) {
    exists key :: key in left && key !in keys && e == Reap(left[key])
  }

  lemma RemovedStays(me: Actor, s: State, t: State, left: map<string, Cid>, keys: set<string>, acts: seq<Event>)
    requires Later(me, s, t) && Removed(s, left, keys, acts)
    ensures Removed(t, left, keys, acts)
  {
  }

  lemma RemovedMore(
    me: Actor, s: State, t: State, left: map<string, Cid>, keys: set<string>, key: string, acts: seq<Event>)
    requires Later(me, s, t) && Removed(s, left, keys, acts) && key in keys && key in left
    requires left[key] in t.issued && left[key] !in t.alive
    ensures Removed(t, left, keys - {key}, acts + [Reap(left[key])])
  {
    var more := acts + [Reap(left[key])];
    forall e | e in more ensures ReapedFor(left, keys - {key}, e) {
      if e in acts {
        assert ReapedFor(left, keys, e);
      } else {
        assert key in left && key !in keys - {key} && e == Reap(left[key]);
      }
    }
  }

  lemma ReapedMore(
    k: Setup, me: Actor, s: State, mid: State, left: map<string, Cid>, keys: set<string>, key: string, acts: seq<Event>)
    requires Later(me, s, mid) && Removed(s, left, keys, acts) && key in keys && key in left && left[key] in s.issued
    requires Enabled(k, mid, me, Reap(left[key]))
    ensures Removed(Apply(mid, me, Reap(left[key])), left, keys - {key}, acts + [Reap(left[key])])
  {
    RemovedStays(me, s, mid, left, keys, acts);
    RemovedMore(me, mid, Apply(mid, me, Reap(left[key])), left, keys, key, acts);
  }

  // Where the second loop stands while the containers of keys are still to be stopped.
  ghost predicate Reaping(
    p: Platform, me: Actor, start: State, base: seq<Event>, left: map<string, Cid>, keys: set<string>, acts: seq<Event>)
    reads p
  {
    && keys <= left.Keys
    && p.Valid() && p.st.Holds(me) && Steady(p.setup, me, start, p.st)
    && Mine(p.log, me) == base + acts && AllReap(acts) && |acts| == |left.Keys - keys|
    && Removed(p.st, left, keys, acts)
    && (p.calm ==> OnlyReaped(start, p.st, left, keys))
  }

  // Nothing but the containers of all keys but these is gone.
  ghost predicate OnlyReaped(start: State, s: State, left: map<string, Cid>, keys: set<string>) {
    && s.rows == start.rows && s.issued == start.issued
    && s.alive == start.alive - Picked(left, left.Keys - keys)
  }

  lemma CalmReap(start: State, s: State, t: State, left: map<string, Cid>, keys: set<string>, key: string)
    requires key in keys && keys <= left.Keys && OnlyReaped(start, s, left, keys)
    requires t.rows == s.rows && t.issued == s.issued && t.alive == s.alive - {left[key]}
    ensures OnlyReaped(start, t, left, keys - {key})
  {
    PickedMore(left, keys, key);
  }

  predicate Orphans(k: Setup, s: State, left: map<string, Cid>) {
    k.solo ==> forall key | key in left :: Unclaimed(s, left[key])
  }

  lemma StillUnclaimed(s: State, t: State, c: Cid)
    requires RowsHeld(s, t) && Unclaimed(s, c)
    ensures Unclaimed(t, c)
  {
  }

  method ReapOne(
    p: Platform, me: Actor, ghost start: State, ghost base: seq<Event>, left: map<string, Cid>,
    ghost keys: set<string>, key: string, ghost acts: seq<Event>)
    returns (ok: bool, ghost acts': seq<Event>)
    requires key in keys && Reaping(p, me, start, base, left, keys, acts) && start.Holds(me)
    requires Orphans(p.setup, start, left) && left[key] in start.issued
    modifies p
    ensures Reaping(p, me, start, base, left, if ok then keys - {key} else keys, acts')
    ensures |acts'| == if ok then |acts| + 1 else |acts|
    ensures old(p.log) <= p.log && p.faults == old(p.faults) + (if ok then 0 else 1)
  {
    ghost var s := p.st;
    if p.setup.solo { StillUnclaimed(start, s, left[key]); }
    ghost var mid;
    ok, mid := StopOrphan(p, me, start, left[key]);
    acts' := if ok then acts + [Reap(left[key])] else acts;
    if ok {
      Joined(base, acts, [Reap(left[key])]);
      MoreReaps(acts, left[key]);
      PickedMore(left, keys, key);
      ReapedMore(p.setup, me, s, mid, left, keys, key, acts);
      if p.calm { CalmReap(start, s, p.st, left, keys, key); }
    } else {
      RemovedStays(me, s, p.st, left, keys, acts);
    }
  }

  lemma MoreReaps(acts: seq<Event>, c: Cid)
    requires AllReap(acts)
    ensures AllReap(acts + [Reap(c)])
  {
  }

  // The stop runs in state mid.
  method StopOrphan(p: Platform, me: Actor, ghost start: State, c: Cid) returns (ok: bool, ghost mid: State)
    requires p.Valid() && p.st.Holds(me) && Steady(p.setup, me, start, p.st) && start.Holds(me)
    requires Enabled(p.setup, p.st, me, Reap(c))
    modifies p
    ensures p.Valid() && p.st.Holds(me) && Steady(p.setup, me, start, p.st) && old(p.log) <= p.log
    ensures Mine(p.log, me) == Mine(old(p.log), me) + (if ok then [Reap(c)] else [])
    ensures Later(me, old(p.st), mid) && p.st == if ok then Apply(mid, me, Reap(c)) else mid
    ensures ok ==> Enabled(p.setup, mid, me, Reap(c))
    ensures p.calm ==> SameStores(old(p.st), mid)
    ensures p.faults == old(p.faults) + (if ok then 0 else 1)
  {
    ghost var s := p.st;
    ok, mid := p.StopContainer(me, c, Reap(c));
    if ok {
      SteadyTransitive(p.setup, me, start, s, mid);
      OwnStep(p.setup, me, start, mid, Reap(c));
    } else {
      mid := p.st;
      SteadyTransitive(p.setup, me, start, s, p.st);
    }
  }

  lemma PickedMore(left: map<string, Cid>, keys: set<string>, key: string)
    requires key in keys && keys <= left.Keys
    ensures Picked(left, left.Keys - (keys - {key})) == Picked(left, left.Keys - keys) + {left[key]}
    ensures |left.Keys - (keys - {key})| == |left.Keys - keys| + 1
  {
    assert left.Keys - (keys - {key}) == (left.Keys - keys) + {key};
  }

  method ReapOrphans(p: Platform, me: Actor, left: map<string, Cid>)
    returns (ok: bool, removed: nat, ghost acts: seq<Event>, ghost keys: set<string>)
    requires p.Valid() && p.st.Holds(me)
    requires Orphans(p.setup, p.st, left) && forall key | key in left :: left[key] in p.st.issued
    modifies p
    ensures p.Valid() && p.st.Holds(me) && Steady(p.setup, me, old(p.st), p.st)
    ensures Removed(p.st, left, keys, acts) && (ok ==> keys == {})
    ensures ok ==> removed == |left.Keys|
    ensures old(p.log) <= p.log && Mine(p.log, me) == Mine(old(p.log), me) + acts && AllReap(acts) && removed == |acts|
    ensures ok && p.calm ==>
              && p.st.rows == old(p.st).rows && p.st.issued == old(p.st).issued
              && p.st.alive == old(p.st).alive - Picked(left, left.Keys)
    ensures p.faults == old(p.faults) + (if ok then 0 else 1)
  {
    ghost var start, base := p.st, Mine(p.log, me);
    ReapStart(p, me, left);
    ok, removed, acts, keys := ReapLoop(p, me, left, start, base);
    if ok { ReapEnd(p, me, start, base, left, acts); }
  }

  lemma ReapStart(p: Platform, me: Actor, left: map<string, Cid>)
    requires p.Valid() && p.st.Holds(me)
    ensures Reaping(p, me, p.st, Mine(p.log, me), left, left.Keys, [])
  {
    assert left.Keys - left.Keys == {} && Picked(left, {}) == {};
    assert Mine(p.log, me) + [] == Mine(p.log, me);
  }

  lemma ReapEnd(p: Platform, me: Actor, start: State, base: seq<Event>, left: map<string, Cid>, acts: seq<Event>)
    requires Reaping(p, me, start, base, left, {}, acts)
    ensures |acts| == |left.Keys| && (p.calm ==> p.st.alive == start.alive - Picked(left, left.Keys))
  {
    assert left.Keys - {} == left.Keys;
  }

  method ReapLoop(p: Platform, me: Actor, left: map<string, Cid>, ghost start: State, ghost base: seq<Event>)
    returns (ok: bool, removed: nat, ghost acts: seq<Event>, ghost keys: set<string>)
    requires Reaping(p, me, start, base, left, left.Keys, []) && start.Holds(me)
    requires Orphans(p.setup, start, left) && forall key | key in left :: left[key] in start.issued
    modifies p
    ensures Reaping(p, me, start, base, left, keys, acts) && removed == |acts| && (ok ==> keys == {})
    ensures old(p.log) <= p.log && p.faults == old(p.faults) + (if ok then 0 else 1)
  {
    ok, removed, acts := true, 0, [];
    var rest := left.Keys;
    keys := rest;
    while rest != {}
      invariant ok && keys == rest && Reaping(p, me, start, base, left, rest, acts)
      invariant old(p.log) <= p.log && removed == |acts| && p.faults == old(p.faults)
    {
      var key :| key in rest;
      ok, acts := ReapOne(p, me, start, base, left, rest, key, acts);
      if !ok { return; }
      rest := rest - {key};
      keys := rest;
      removed := removed + 1;
    }
  }

  datatype Report = Report(terminatedRecords: nat, removedContainers: nat)

  // What a pass issued: the terminations it reports, then the removals it reports.
  predicate PassTrace(acts: seq<Event>, r: Report) {
    && |acts| == r.terminatedRecords + r.removedContainers
    && AllRetire(acts[..r.terminatedRecords]) && AllReap(acts[r.terminatedRecords..])
  }

  // Some active row has the key.
  ghost predicate KeyHeld(s: State, key: string) {
    exists id | s.ActiveRow(id) :: RowKey(s.rows[id]) == key
  }

  function MissingIds(s: State): set<nat> {
    set id | id in s.rows && s.rows[id].Active() && s.rows[id].container !in s.alive
  }

  // The containers a pass removes: for every key no active row held, the one the listing showed last.
  ghost function Victims(s: State, chosen: map<string, Cid>): set<Cid> {
    set key | key in chosen && !KeyHeld(s, key) :: chosen[key]
  }

  // An undisturbed error-free pass: rows without container are terminated, and of the containers
  // whose key no active row held, one per key, as chosen by the listing, is removed.
  ghost predicate Pass(s: State, t: State, r: Report, chosen: map<string, Cid>) {
    && Indexes(s, chosen)
    && t.issued == s.issued && t.rows.Keys == s.rows.Keys
    && (forall id | id in s.rows ::
          if id in MissingIds(s) then Settled(s.rows[id], t.rows[id]) && !t.rows[id].Active()
          else t.rows[id] == s.rows[id])
    && t.alive == s.alive - Victims(s, chosen)
    && r == Report(|MissingIds(s)|, |Victims(s, chosen)|)
  }

  predicate SameStores(s: State, t: State) {
    s.rows == t.rows && s.alive == t.alive && s.issued == t.issued
  }

  lemma PassFrame(s: State, t: State, s': State, t': State, r: Report, chosen: map<string, Cid>)
    requires Pass(s, t, r, chosen) && SameStores(s, s') && SameStores(t, t')
    ensures Pass(s', t', r, chosen)
  {
    assert MissingIds(s') == MissingIds(s);
    forall key ensures KeyHeld(s, key) <==> KeyHeld(s', key) {
      if KeyHeld(s, key) {
        var id :| s.ActiveRow(id) && RowKey(s.rows[id]) == key;
        assert s'.ActiveRow(id);
      }
      if KeyHeld(s', key) {
        var id :| s'.ActiveRow(id) && RowKey(s'.rows[id]) == key;
        assert s.ActiveRow(id);
      }
    }
    assert Victims(s', chosen) == Victims(s, chosen);
  }

  // The active rows of t were listed, so no key left in the map belongs to an active row, and none
  // of the containers in it is one's.
  lemma LeftAreOrphans(
    k: Setup, me: Actor, start: State, listed: State, t: State, items: seq<Item>, index: map<string, Cid>)
    requires k.solo ==> RowsHeld(start, t) && RowsHeld(listed, t)
    requires ListsExactly(start, items, start.ActiveIds())
    requires Indexes(listed, index) && RowsTracked(k, listed)
    ensures Orphans(k, t, index - KeysOf(items))
  {
    if k.solo {
      var left := index - KeysOf(items);
      forall key, id | key in left && t.ActiveRow(id) ensures t.rows[id].container != left[key] {
        assert Item(id, start.rows[id]) in items;
        assert RowKey(start.rows[id]) in KeysOf(items);
        assert SameInstance(listed.rows[id], t.rows[id]) && SameInstance(start.rows[id], t.rows[id]);
        assert LabelKey(listed.issued[listed.rows[id].container]) == RowKey(listed.rows[id]);
      }
    }
  }

  lemma CompletedPass(s: State, m: State, t: State, items: seq<Item>, index: map<string, Cid>, gone: nat, reaped: nat)
    requires ListsExactly(s, items, s.ActiveIds()) && Indexes(s, index)
    requires OnlyRetired(s, m, GoneIds(s, items)) && gone == |GoneIds(s, items)|
    requires
      var left := index - KeysOf(items);
      t.rows == m.rows && t.issued == m.issued && t.alive == m.alive - Picked(left, left.Keys) && reaped == |left.Keys|
    ensures Pass(s, t, Report(gone, reaped), index)
  {
    var left := index - KeysOf(items);
    GoneAreMissing(s, items);
    LeftAreVictims(s, items, index);
    PickedSize(left, left.Keys, s);
  }

  lemma LeftAreVictims(s: State, items: seq<Item>, index: map<string, Cid>)
    requires ListsExactly(s, items, s.ActiveIds())
    ensures var left := index - KeysOf(items); Victims(s, index) == Picked(left, left.Keys)
  {
    KeysAreHeld(s, items);
    var left := index - KeysOf(items);
    forall c | c in Victims(s, index) ensures c in Picked(left, left.Keys) {
      var key :| key in index && !KeyHeld(s, key) && index[key] == c;
      assert key in left.Keys;
    }
    forall c | c in Picked(left, left.Keys) ensures c in Victims(s, index) {
      var key :| key in left.Keys && left[key] == c;
      assert key in index && !KeyHeld(s, key);
    }
  }

  lemma VictimOf(s: State, chosen: map<string, Cid>, key: string)
    requires key in chosen
    ensures !KeyHeld(s, key) ==> chosen[key] in Victims(s, chosen)
  {
  }

  lemma VictimsAlive(s: State, chosen: map<string, Cid>)
    requires Indexes(s, chosen)
    ensures Victims(s, chosen) <= s.alive
  {
  }

  lemma GoneAreMissing(s: State, items: seq<Item>)
    requires ListsExactly(s, items, s.ActiveIds())
    ensures GoneIds(s, items) == MissingIds(s)
  {
    forall id | id in MissingIds(s) ensures id in GoneIds(s, items) {
      assert Item(id, s.rows[id]) in items;
    }
  }

  lemma KeysAreHeld(s: State, items: seq<Item>)
    requires ListsExactly(s, items, s.ActiveIds())
    ensures forall key :: key in KeysOf(items) <==> KeyHeld(s, key)
  {
    forall key | key in KeysOf(items) ensures KeyHeld(s, key) {
      var i :| 0 <= i < |items| && RowKey(items[i].row) == key;
      assert s.ActiveRow(items[i].id);
    }
    forall key | KeyHeld(s, key) ensures key in KeysOf(items) {
      var id :| s.ActiveRow(id) && RowKey(s.rows[id]) == key;
      assert Item(id, s.rows[id]) in items;
    }
  }

  lemma {:induction false} PickedSize(left: map<string, Cid>, keys: set<string>, s: State)
    requires keys <= left.Keys
    requires forall key | key in left :: left[key] in s.issued && LabelKey(s.issued[left[key]]) == key
    ensures |Picked(left, keys)| == |keys|
    decreases keys
  {
    if keys == {} {
      assert Picked(left, keys) == {};
    } else {
      var key :| key in keys;
      PickedSize(left, keys - {key}, s);
      assert Picked(left, keys) == Picked(left, keys - {key}) + {left[key]};
      assert left[key] !in Picked(left, keys - {key});
    }
  }

  // What a pass reads before it acts: the active rows, in state start, and then the containers, in
  // state listed.
  method ReadAll(p: Platform, me: Actor)
    returns (ok: bool, items: seq<Item>, now: int, index: map<string, Cid>, ghost start: State, ghost listed: State)
    requires p.Valid() && p.st.Holds(me)
    modifies p
    ensures p.Valid() && p.st.Holds(me) && old(p.log) <= p.log && Mine(p.log, me) == Mine(old(p.log), me)
    ensures ok ==>
              && ListsExactly(start, items, start.ActiveIds()) && Indexes(listed, index) && Core(p.setup, listed)
              && p.st == listed && start.Holds(me) && Steady(p.setup, me, old(p.st), start)
              && Steady(p.setup, me, start, listed)
              && Snapshot(listed, items) && start.now <= now <= listed.now
              && VisitedInTurn(p.origin, p.log, |old(p.log)|, start, listed)
    ensures ok && p.calm ==> SameStores(old(p.st), start) && SameStores(start, listed)
    ensures p.faults == old(p.faults) + (if ok then 0 else 1)
  {
    ok, items, now, index, start, listed := false, [], 0, map[], p.st, p.st;
    var active := p.ListActive(me);
    if active.None? { return; }
    start := p.st;
    ghost var l := p.log;
    items := active.value;
    now := p.Clock(me);
    ghost var s := p.st;
    var containers := p.ListManaged(me);
    if containers.None? { return; }
    listed := p.st;
    VisitedNow(p.origin, p.log, |l|);
    InTurn(p.origin, l, p.log, |old(p.log)|, listed);
    SteadyTransitive(p.setup, me, start, s, listed);
    p.Sound();
    index := BuildIndex(containers.value);
    ListingIndexed(listed, containers.value);
    ok := true;
  }

  lemma FinishedPass(
    s0: State, start: State, listed: State, m: State, t: State, items: seq<Item>, index: map<string, Cid>, gone: nat, reaped: nat)
    requires SameStores(s0, start) && SameStores(start, listed)
    requires ListsExactly(start, items, start.ActiveIds()) && Indexes(listed, index)
    requires OnlyRetired(listed, m, GoneIds(listed, items)) && gone == |GoneIds(listed, items)|
    requires
      var left := index - KeysOf(items);
      t.rows == m.rows && t.issued == m.issued && t.alive == m.alive - Picked(left, left.Keys) && reaped == |left.Keys|
    ensures Pass(s0, t, Report(gone, reaped), index)
  {
    assert start.ActiveIds() == listed.ActiveIds();
    CompletedPass(listed, m, t, items, index, gone, reaped);
    PassFrame(listed, t, s0, t, Report(gone, reaped), index);
  }

  // What the two loops of a pass over rows items and containers index, read by state listed, did by
  // state t, whoever acted meanwhile: rows whose container was gone were terminated, and indexed
  // containers whose key no listed row held were stopped and are gone; all of them if there was no
  // error, and no others.
  ghost predicate Worked(
    listed: State, t: State, items: seq<Item>, index: map<string, Cid>, now: int, ok: bool, r: Report, acts: seq<Event>)
  {
    && PassTrace(acts, r)
    && exists n: nat, keys: set<string> ::
         && WorkedSoFar(listed, t, items, index, now, r, acts, n, keys)
         && (ok ==> n == |items| && keys == {} && r.removedContainers == |(index - KeysOf(items)).Keys|)
  }

  ghost predicate WorkedSoFar(
    listed: State, t: State, items: seq<Item>, index: map<string, Cid>, now: int, r: Report, acts: seq<Event>,
    n: nat, keys: set<string>)
    requires PassTrace(acts, r)
  {
    && n <= |items| && Terminated(listed, t, items, n, now, acts[..r.terminatedRecords])
    && Removed(t, index - KeysOf(items), keys, acts[r.terminatedRecords..])
    && (n < |items| ==> r.removedContainers == 0)
  }

  lemma WorkedStays(
    k: Setup, me: Actor, listed: State, s: State, t: State, items: seq<Item>, index: map<string, Cid>, now: int,
    ok: bool, r: Report, acts: seq<Event>)
    requires Core(k, s) && Later(me, s, t) && Worked(listed, s, items, index, now, ok, r, acts)
    ensures Worked(listed, t, items, index, now, ok, r, acts)
  {
    var n: nat, keys: set<string> :|
      && WorkedSoFar(listed, s, items, index, now, r, acts, n, keys)
      && (ok ==> n == |items| && keys == {} && r.removedContainers == |(index - KeysOf(items)).Keys|);
    TerminatedStays(k, me, listed, s, t, items, n, now, acts[..r.terminatedRecords]);
    RemovedStays(me, s, t, index - KeysOf(items), keys, acts[r.terminatedRecords..]);
    assert WorkedSoFar(listed, t, items, index, now, r, acts, n, keys);
  }

  // An error-free pass has done what it is for.
  lemma WorkDone(
    listed: State, t: State, items: seq<Item>, index: map<string, Cid>, now: int, r: Report, acts: seq<Event>)
    requires Worked(listed, t, items, index, now, true, r, acts)
    ensures forall item | item in items && item.row.container !in listed.alive :: Finished(t, item.id)
    ensures forall key | key in index && key !in KeysOf(items) :: index[key] !in t.alive
    ensures |acts| == r.terminatedRecords + r.removedContainers
  {
    var n: nat, keys: set<string> :|
      && WorkedSoFar(listed, t, items, index, now, r, acts, n, keys)
      && n == |items| && keys == {} && r.removedContainers == |(index - KeysOf(items)).Keys|;
    var retires, reaps, left := acts[..r.terminatedRecords], acts[r.terminatedRecords..], index - KeysOf(items);
    forall item | item in items && item.row.container !in listed.alive ensures Finished(t, item.id) {
      var i :| 0 <= i < |items| && items[i] == item;
      assert Retire(items[i].id, now) in retires;
    }
    forall key | key in index && key !in KeysOf(items) ensures index[key] !in t.alive {
      assert key in left && Reap(left[key]) in reaps;
    }
  }

  // The two loops of a pass over what it read; mid is the state between them.
  method Repair(p: Platform, me: Actor, items: seq<Item>, now: int, index: map<string, Cid>, ghost start: State)
    returns (ok: bool, report: Report, ghost acts: seq<Event>, ghost mid: State)
    requires p.Valid() && p.st.Holds(me) && start.Holds(me) && Steady(p.setup, me, start, p.st)
    requires ListsExactly(start, items, start.ActiveIds()) && Snapshot(p.st, items)
    requires Indexes(p.st, index) && RowsTracked(p.setup, p.st)
    modifies p
    ensures p.Valid() && p.st.Holds(me) && Steady(p.setup, me, old(p.st), p.st)
    ensures old(p.log) <= p.log && Mine(p.log, me) == Mine(old(p.log), me) + acts
    ensures Worked(old(p.st), p.st, items, index, now, ok, report, acts)
    ensures p.calm && ok ==>
              var gone, left := GoneIds(old(p.st), items), index - KeysOf(items);
              && OnlyRetired(old(p.st), mid, gone) && report == Report(|gone|, |left.Keys|)
              && p.st.rows == mid.rows && p.st.issued == mid.issued && p.st.alive == mid.alive - Picked(left, left.Keys)
    ensures p.faults == old(p.faults) + (if ok then 0 else 1)
  {
    var left, retired, removed;
    ghost var retires, reaps, n, keys;
    ok, left, retired, retires, n := RetireMissing(p, me, items, now, index);
    acts, report, mid := retires, Report(retired, 0), p.st;
    if !ok {
      NothingReaped(old(p.st), mid, items, index, now, retires, n);
      return;
    }
    SteadyTransitive(p.setup, me, start, old(p.st), mid);
    LeftAreOrphans(p.setup, me, start, old(p.st), mid, items, index);
    p.Sound();
    ok, removed, reaps, keys := ReapOrphans(p, me, left);
    Joined(Mine(old(p.log), me), retires, reaps);
    SteadyTransitive(p.setup, me, old(p.st), mid, p.st);
    acts, report := retires + reaps, Report(retired, removed);
    BothLoops(p.setup, me, old(p.st), mid, p.st, items, index, now, ok, retires, reaps, keys);
  }

  lemma NothingReaped(
    listed: State, t: State, items: seq<Item>, index: map<string, Cid>, now: int, retires: seq<Event>, n: nat)
    requires n <= |items| && Terminated(listed, t, items, n, now, retires) && AllRetire(retires)
    ensures Worked(listed, t, items, index, now, false, Report(|retires|, 0), retires)
  {
    var keys := (index - KeysOf(items)).Keys;
    assert retires[..|retires|] == retires && retires[|retires|..] == [];
    assert WorkedSoFar(listed, t, items, index, now, Report(|retires|, 0), retires, n, keys);
  }

  lemma BothLoops(
    k: Setup, me: Actor, listed: State, mid: State, t: State, items: seq<Item>, index: map<string, Cid>, now: int,
    ok: bool, retires: seq<Event>, reaps: seq<Event>, keys: set<string>)
    requires Core(k, mid) && Later(me, mid, t)
    requires RetiredAll(listed, mid, items, now, retires) && ReapedAll(t, index - KeysOf(items), ok, reaps, keys)
    ensures Worked(listed, t, items, index, now, ok, Report(|retires|, |reaps|), retires + reaps)
  {
    var acts, r := retires + reaps, Report(|retires|, |reaps|);
    assert acts[..|retires|] == retires && acts[|retires|..] == reaps;
    TerminatedStays(k, me, listed, mid, t, items, |items|, now, retires);
    assert WorkedSoFar(listed, t, items, index, now, r, acts, |items|, keys);
  }

  // What the first loop did to all rows of the list, and what the second did to what was left.
  ghost predicate RetiredAll(listed: State, mid: State, items: seq<Item>, now: int, retires: seq<Event>) {
    AllRetire(retires) && Terminated(listed, mid, items, |items|, now, retires)
  }

  ghost predicate ReapedAll(t: State, left: map<string, Cid>, ok: bool, reaps: seq<Event>, keys: set<string>) {
    AllReap(reaps) && Removed(t, left, keys, reaps) && (ok ==> keys == {} && |reaps| == |left.Keys|)
  }

  // What a pass read on the way: the active rows in state start, the containers in state listed.
  ghost predicate Surveyed(
    k: Setup, me: Actor, s: State, start: State, listed: State, items: seq<Item>, index: map<string, Cid>, now: int)
  {
    && Later(me, s, start) && Later(me, start, listed) && start.now <= now <= listed.now
    && ListsExactly(start, items, start.ActiveIds()) && Indexes(listed, index)
  }

  // Reconcile between taking and releasing the mutex. Without a survey nothing was done.
  method ReconcileLocked(p: Platform, me: Actor)
    returns (ok: bool, report: Report, ghost acts: seq<Event>, ghost seen: Option<Survey>)
    requires p.Valid() && p.st.Holds(me)
    modifies p
    ensures p.Valid() && p.st.Holds(me)
    ensures old(p.log) <= p.log && Mine(p.log, me) == Mine(old(p.log), me) + acts
    ensures Reconciled(p.setup, me, old(p.st), p.st, ok, report, acts, seen)
    ensures OnRecord(p.origin, p.log, |old(p.log)|, seen)
    ensures p.calm && ok ==> Pass(old(p.st), p.st, report, seen.value.index)
    ensures p.faults == old(p.faults) + (if ok then 0 else 1)
  {
    acts, report, seen := [], Report(0, 0), None;
    ghost var start, listed, mid;
    var items, now, index;
    ok, items, now, index, start, listed := ReadAll(p, me);
    if !ok { return; }
    seen := Some(Survey.Survey(start, listed, items, index, now));
    ghost var l := p.log;
    ok, report, acts, mid := Repair(p, me, items, now, index, start);
    InTurnStays(p.origin, l, p.log, |old(p.log)|, |old(p.log)|, start, listed);
    if p.calm && ok {
      FinishedPass(old(p.st), start, listed, mid, p.st, items, index, report.terminatedRecords, report.removedContainers);
    }
  }

  // What a pass read.
  datatype Survey = Survey(start: State, listed: State, items: seq<Item>, index: map<string, Cid>, now: int)

  ghost predicate Reconciled(
    k: Setup, me: Actor, s: State, t: State, ok: bool, report: Report, acts: seq<Event>, seen: Option<Survey>)
  {
    match seen
    case None => !ok && acts == [] && report == Report(0, 0)
    case Some(v) =>
      && Surveyed(k, me, s, v.start, v.listed, v.items, v.index, v.now)
      && Worked(v.listed, t, v.items, v.index, v.now, ok, report, acts)
      && Onward(v.listed, t)
  }

  // The survey was made of states of the run, after its first n entries.
  ghost predicate OnRecord(origin: State, log: seq<Entry>, n: nat, seen: Option<Survey>) {
    seen.Some? ==> VisitedInTurn(origin, log, n, seen.value.start, seen.value.listed)
  }

  // What an error-free call is for: a row whose container was gone before the call is terminated.
  lemma LostRowsFinished(
    k: Setup, me: Actor, s: State, t: State, report: Report, acts: seq<Event>, seen: Option<Survey>)
    requires Reconciled(k, me, s, t, true, report, acts, seen) && Core(k, s)
    ensures forall id | id in s.rows && s.rows[id].container !in s.alive :: Finished(t, id)
  {
    var v := seen.value;
    WorkDone(v.listed, t, v.items, v.index, v.now, report, acts);
    forall id | id in s.rows && s.rows[id].container !in s.alive ensures Finished(t, id) {
      if v.start.ActiveRow(id) {
        assert Item(id, v.start.rows[id]) in v.items;
      }
    }
  }

  // A container of the key lived when the containers were listed and is gone.
  predicate Relieved(listed: State, t: State, key: string) {
    exists d :: d in listed.alive && d in listed.issued && LabelKey(listed.issued[d]) == key && d !in t.alive
  }

  // And of a container that is still there, the key was held by an active row when the rows were
  // listed, or another container of that key was removed.
  lemma OrphansRemoved(
    k: Setup, me: Actor, s: State, t: State, report: Report, acts: seq<Event>, seen: Option<Survey>)
    requires Reconciled(k, me, s, t, true, report, acts, seen)
    ensures
      var v := seen.value;
      forall c | c in t.alive && c in v.listed.issued ::
        KeyHeld(v.start, LabelKey(v.listed.issued[c])) || Relieved(v.listed, t, LabelKey(v.listed.issued[c]))
  {
    var v := seen.value;
    WorkDone(v.listed, t, v.items, v.index, v.now, report, acts);
    KeysAreHeld(v.start, v.items);
    forall c | c in t.alive && c in v.listed.issued
      ensures KeyHeld(v.start, LabelKey(v.listed.issued[c])) || Relieved(v.listed, t, LabelKey(v.listed.issued[c]))
    {
      var key := LabelKey(v.listed.issued[c]);
      assert key in v.index;
      if key !in KeysOf(v.items) {
        assert v.index[key] !in t.alive;
      }
    }
  }

  method Reconcile(p: Platform, me: Actor)
    returns (ok: bool, report: Report, ghost waited: bool, ghost acts: seq<Event>, ghost seen: Option<Survey>)
    requires p.Valid() && me.Worker?
    modifies p
    ensures p.Valid()
    ensures waited ==> !ok && report == Report(0, 0) && p.Blocked(me) && old(p.log) <= p.log && Mine(p.log, me) == Mine(old(p.log), me)
    ensures !waited ==>
              && old(p.log) <= p.log && Mine(p.log, me) == Mine(old(p.log), me) + ([Lock] + acts + [Unlock])
              && Reconciled(p.setup, me, old(p.st), p.st, ok, report, acts, seen)
              && OnRecord(p.origin, p.log, |old(p.log)|, seen)
    ensures p.calm && ok ==> Pass(old(p.st), p.st, report, seen.value.index)
    ensures p.faults == old(p.faults) + (if waited || ok then 0 else 1)
  {
    acts, report, ok, seen, waited := [], Report(0, 0), false, None, true;
    var got;
    ghost var mid;
    got, mid := p.Acquire(me);
    if !got { return; }
    waited := false;
    ok, report, acts, seen := ReconcileHeld(p, me, old(p.st), |old(p.log)|);
    Bracketed(Mine(old(p.log), me), acts);
  }

  // The pass and the release of the mutex, as seen from a state before the mutex was taken.
  method ReconcileHeld(p: Platform, me: Actor, ghost before: State, ghost n: nat)
    returns (ok: bool, report: Report, ghost acts: seq<Event>, ghost seen: Option<Survey>)
    requires p.Valid() && p.st.Holds(me) && Later(me, before, p.st) && (p.calm ==> SameStores(before, p.st))
    requires n <= |p.log|
    modifies p
    ensures p.Valid() && old(p.log) <= p.log && Mine(p.log, me) == Mine(old(p.log), me) + acts + [Unlock]
    ensures Reconciled(p.setup, me, before, p.st, ok, report, acts, seen) && OnRecord(p.origin, p.log, n, seen)
    ensures p.calm && ok ==> Pass(before, p.st, report, seen.value.index)
    ensures p.faults == old(p.faults) + (if ok then 0 else 1)
  {
    ghost var s := p.st;
    ghost var mid;
    ok, report, acts, seen := ReconcileLocked(p, me);
    ghost var t, l := p.st, p.log;
    p.Sound();
    mid := p.Release(me);
    if seen.Some? { InTurnStays(p.origin, l, p.log, |old(p.log)|, n, seen.value.start, seen.value.listed); }
    SeenFromOutside(p.setup, p.calm, me, before, s, t, mid, p.st, ok, report, acts, seen);
  }

  // Taking and releasing the mutex around a pass changes nothing it tells of.
  lemma SeenFromOutside(
    k: Setup, calm: bool, me: Actor, before: State, s: State, t: State, mid: State, after: State,
    ok: bool, report: Report, acts: seq<Event>, seen: Option<Survey>)
    requires Reconciled(k, me, s, t, ok, report, acts, seen) && Core(k, t)
    requires Later(me, before, s) && Later(me, t, mid) && SameStores(mid, after)
    requires calm && ok ==> Pass(s, t, report, seen.value.index) && SameStores(before, s) && SameStores(t, after)
    ensures Reconciled(k, me, before, after, ok, report, acts, seen)
    ensures calm && ok ==> Pass(before, after, report, seen.value.index)
  {
    if seen.Some? {
      var v := seen.value;
      LaterTransitive(me, before, s, v.start);
      WorkedStays(k, me, v.listed, t, mid, v.items, v.index, v.now, ok, report, acts);
      WorkedSame(v.listed, mid, after, v.items, v.index, v.now, ok, report, acts);
    }
    if calm && ok { PassFrame(s, t, before, after, report, seen.value.index); }
  }

  lemma WorkedSame(
    listed: State, s: State, t: State, items: seq<Item>, index: map<string, Cid>, now: int,
    ok: bool, r: Report, acts: seq<Event>)
    requires Worked(listed, s, items, index, now, ok, r, acts)
    requires t.rows == s.rows && t.alive == s.alive && t.issued == s.issued
    ensures Worked(listed, t, items, index, now, ok, r, acts)
  {
    var n: nat, keys: set<string> :|
      && WorkedSoFar(listed, s, items, index, now, r, acts, n, keys)
      && (ok ==> n == |items| && keys == {} && r.removedContainers == |(index - KeysOf(items)).Keys|);
    var retires := acts[..r.terminatedRecords];
    assert forall e | e in retires :: Finished(s, e.id) && Finished(t, e.id);
    assert Terminated(listed, t, items, n, now, retires);
    assert WorkedSoFar(listed, t, items, index, now, r, acts, n, keys);
  }
}

// What repeated passes achieve.
module Convergence {
  import opened Options
  import opened Protocol
  import opened Safety
  import opened Interference
  import opened Reconciliation

  function Size(s: State): nat {
    |s.ActiveIds()| + |s.alive|
  }

  // A pass removes exactly what it reports.
  lemma PassConserves(s: State, t: State, r: Report, chosen: map<string, Cid>)
    requires Pass(s, t, r, chosen)
    ensures Size(t) == Size(s) - r.terminatedRecords - r.removedContainers
  {
    ActiveSplit(s, t, r, chosen);
    DisjointSize(s.ActiveIds(), t.ActiveIds(), MissingIds(s));
    AliveSplit(s, t, r, chosen);
  }

  lemma AliveSplit(s: State, t: State, r: Report, chosen: map<string, Cid>)
    requires Pass(s, t, r, chosen)
    ensures |s.alive| == |t.alive| + |Victims(s, chosen)|
  {
    VictimsAlive(s, chosen);
    DisjointSize(s.alive, t.alive, Victims(s, chosen));
  }

  lemma ActiveSplit(s: State, t: State, r: Report, chosen: map<string, Cid>)
    requires Pass(s, t, r, chosen)
    ensures s.ActiveIds() == t.ActiveIds() + MissingIds(s) && t.ActiveIds() !! MissingIds(s)
  {
  }

  lemma DisjointSize<T>(a: set<T>, b: set<T>, c: set<T>)
    requires a == b + c && b !! c
    ensures |a| == |b| + |c|
  {
  }

  // Nothing left to do: every active row has its container and every container's key a row.
  ghost predicate InStep(s: State) {
    && MissingIds(s) == {}
    && forall c | c in s.alive && c in s.issued :: KeyHeld(s, LabelKey(s.issued[c]))
  }

  // A report of nothing is given exactly when nothing had to be done, and then nothing changed.
  lemma EmptyReport(s: State, t: State, r: Report, chosen: map<string, Cid>)
    requires Pass(s, t, r, chosen)
    ensures r == Report(0, 0) <==> InStep(s)
    ensures r == Report(0, 0) ==> t.rows == s.rows && t.alive == s.alive
  {
    if r == Report(0, 0) {
      assert Victims(s, chosen) == {} && MissingIds(s) == {};
      forall c | c in s.alive ensures KeyHeld(s, LabelKey(s.issued[c])) {
        var key := LabelKey(s.issued[c]);
        VictimOf(s, chosen, key);
      }
    }
    if InStep(s) {
      assert Victims(s, chosen) == {};
    }
  }

  ghost predicate PassStep(states: seq<State>, reports: seq<Report>, chosen: seq<map<string, Cid>>, i: nat)
    requires |states| == |reports| + 1 && |chosen| == |reports| && i < |reports|
  {
    Pass(states[i], states[i + 1], reports[i], chosen[i])
  }

  // A run of error-free passes.
  ghost predicate Passes(states: seq<State>, reports: seq<Report>, chosen: seq<map<string, Cid>>) {
    && |states| == |reports| + 1 && |chosen| == |reports|
    && forall i: nat | i < |reports| :: PassStep(states, reports, chosen, i)
  }

  lemma PassAt(states: seq<State>, reports: seq<Report>, chosen: seq<map<string, Cid>>, n: nat)
    requires Passes(states, reports, chosen) && n < |reports|
    ensures Pass(states[n], states[n + 1], reports[n], chosen[n])
  {
    assert PassStep(states, reports, chosen, n);
  }

  // A pass that does not find everything in step leaves fewer rows and containers to deal with.
  lemma PassShrinks(states: seq<State>, reports: seq<Report>, chosen: seq<map<string, Cid>>, n: nat)
    requires Passes(states, reports, chosen) && n < |reports|
    ensures if reports[n] == Report(0, 0) then InStep(states[n]) else Size(states[n + 1]) < Size(states[n])
  {
    PassAt(states, reports, chosen, n);
    EmptyReport(states[n], states[n + 1], reports[n], chosen[n]);
    PassConserves(states[n], states[n + 1], reports[n], chosen[n]);
  }

  lemma {:induction false} SettlesFrom(
    states: seq<State>, reports: seq<Report>, chosen: seq<map<string, Cid>>, n: nat) returns (i: nat)
    requires Passes(states, reports, chosen) && n < |reports| && |reports| - n > Size(states[n])
    ensures n <= i < |reports| && reports[i] == Report(0, 0) && InStep(states[i])
    decreases |reports| - n
  {
    PassShrinks(states, reports, chosen, n);
    if reports[n] == Report(0, 0) {
      i := n;
    } else {
      i := SettlesFrom(states, reports, chosen, n + 1);
    }
  }

  // Repeated error-free passes reach that state after at most Size passes, from any state.
  lemma PassesSettle(states: seq<State>, reports: seq<Report>, chosen: seq<map<string, Cid>>) returns (i: nat)
    requires Passes(states, reports, chosen) && |reports| > Size(states[0])
    ensures i < |reports| && reports[i] == Report(0, 0) && InStep(states[i])
  {
    i := SettlesFrom(states, reports, chosen, 0);
  }

  ghost predicate UniqueKeys(s: State) {
    forall c, d | c in s.alive && d in s.alive && c in s.issued && d in s.issued
                  && LabelKey(s.issued[c]) == LabelKey(s.issued[d]) :: c == d
  }

  ghost predicate HasRow(s: State, c: Cid) {
    exists id | s.ActiveRow(id) :: s.rows[id].container == c
  }

  // Containers and active rows correspond one to one.
  ghost predicate OneToOne(s: State) {
    && (forall id | s.ActiveRow(id) :: s.rows[id].container in s.alive)
    && (forall c | c in s.alive :: HasRow(s, c))
    && (forall i, j | s.ActiveRow(i) && s.ActiveRow(j) && s.rows[i].container == s.rows[j].container :: i == j)
  }

  // What Core says about rows and labels; it does not mention the table's next id.
  ghost predicate Tied(s: State) {
    && s.alive <= s.issued.Keys && ContainersDistinct(s) && OneActivePerKey(s)
    && forall id | id in s.rows ::
         && s.rows[id].container in s.issued
         && LabelKey(s.issued[s.rows[id].container]) == RowKey(s.rows[id])
  }

  lemma CoreTied(k: Setup, s: State)
    requires Core(k, s)
    ensures Tied(s)
  {
  }

  lemma PassTied(s: State, t: State, r: Report, chosen: map<string, Cid>)
    requires Tied(s) && Pass(s, t, r, chosen)
    ensures Tied(t)
  {
    forall i, j | t.ActiveRow(i) && t.ActiveRow(j) && t.rows[i].Owned(t.rows[j].challenge, t.rows[j].user)
      ensures i == j
    {
      assert s.ActiveRow(i) && s.ActiveRow(j);
    }
  }

  // Where passes end, rows and containers correspond one to one exactly if no two containers carry
  // the same key.
  lemma InStepExact(s: State)
    requires Tied(s) && InStep(s)
    ensures OneToOne(s) <==> UniqueKeys(s)
  {
    if UniqueKeys(s) { UniqueGivesOneToOne(s); }
    if OneToOne(s) { OneToOneGivesUnique(s); }
  }

  lemma UniqueGivesOneToOne(s: State)
    requires Tied(s) && InStep(s) && UniqueKeys(s)
    ensures OneToOne(s)
  {
    forall id | s.ActiveRow(id) ensures s.rows[id].container in s.alive {
      assert id !in MissingIds(s);
    }
    forall c | c in s.alive ensures HasRow(s, c) {
      var id :| s.ActiveRow(id) && RowKey(s.rows[id]) == LabelKey(s.issued[c]);
      assert LabelKey(s.issued[s.rows[id].container]) == RowKey(s.rows[id]);
    }
  }

  lemma OneToOneGivesUnique(s: State)
    requires Tied(s) && OneToOne(s)
    ensures UniqueKeys(s)
  {
    forall c, d | c in s.alive && d in s.alive && LabelKey(s.issued[c]) == LabelKey(s.issued[d]) ensures c == d {
      assert HasRow(s, c) && HasRow(s, d);
      var i :| s.ActiveRow(i) && s.rows[i].container == c;
      var j :| s.ActiveRow(j) && s.rows[j].container == d;
      KeyInjective(s.rows[i].challenge, s.rows[i].user, s.rows[j].challenge, s.rows[j].user);
    }
  }

  // A container in the shadow of an active row: it lives beside the row's own and has its key.
  predicate Shadows(s: State, c: Cid, id: nat) {
    && s.ActiveRow(id) && s.rows[id].container in s.alive
    && c in s.alive && c in s.issued && c != s.rows[id].container
    && LabelKey(s.issued[c]) == RowKey(s.rows[id])
  }

  ghost predicate Shadowed(s: State) {
    exists c, id: nat :: Shadows(s, c, id)
  }

  // A pass neither removes nor makes shadows.
  lemma ShadowsKept(s: State, t: State, r: Report, chosen: map<string, Cid>)
    requires Tied(s) && Pass(s, t, r, chosen)
    ensures Shadowed(s) <==> Shadowed(t)
  {
    if c, id: nat :| Shadows(s, c, id) {
      assert id !in MissingIds(s) && KeyHeld(s, LabelKey(s.issued[c]));
      ShadowStays(s, t, r, chosen, c);
      ShadowStays(s, t, r, chosen, s.rows[id].container);
      assert Shadows(t, c, id);
    }
    if c, id: nat :| Shadows(t, c, id) {
      assert Shadows(s, c, id);
    }
  }

  // Where nothing is left to do, the correspondence holds exactly if there is no shadow.
  lemma ShadowExact(s: State)
    requires Tied(s) && InStep(s)
    ensures OneToOne(s) <==> !Shadowed(s)
  {
    if OneToOne(s) { OneToOneGivesUnique(s); }
    if !Shadowed(s) {
      forall id | s.ActiveRow(id) ensures s.rows[id].container in s.alive {
        assert id !in MissingIds(s);
      }
      forall c | c in s.alive ensures HasRow(s, c) {
        var id :| s.ActiveRow(id) && RowKey(s.rows[id]) == LabelKey(s.issued[c]);
        assert !Shadows(s, c, id);
      }
    }
  }

  lemma ShadowsNext(states: seq<State>, reports: seq<Report>, chosen: seq<map<string, Cid>>, n: nat)
    requires Passes(states, reports, chosen) && n < |reports| && Tied(states[n])
    ensures Tied(states[n + 1]) && (Shadowed(states[n + 1]) <==> Shadowed(states[n]))
  {
    PassAt(states, reports, chosen, n);
    ShadowsKept(states[n], states[n + 1], reports[n], chosen[n]);
    PassTied(states[n], states[n + 1], reports[n], chosen[n]);
  }

  lemma {:induction false} ShadowsKeptThroughout(
    states: seq<State>, reports: seq<Report>, chosen: seq<map<string, Cid>>, n: nat)
    requires Passes(states, reports, chosen) && Tied(states[0]) && n <= |reports|
    ensures Tied(states[n]) && (Shadowed(states[n]) <==> Shadowed(states[0]))
  {
    if n > 0 {
      ShadowsKeptThroughout(states, reports, chosen, n - 1);
      ShadowsNext(states, reports, chosen, n - 1);
    }
  }

  lemma InStepStays(s: State, t: State, r: Report, chosen: map<string, Cid>)
    requires Pass(s, t, r, chosen) && InStep(s)
    ensures InStep(t)
  {
    EmptyReport(s, t, r, chosen);
    forall c | c in t.alive && c in t.issued ensures KeyHeld(t, LabelKey(t.issued[c])) {
      var id :| s.ActiveRow(id) && RowKey(s.rows[id]) == LabelKey(s.issued[c]);
      assert t.ActiveRow(id);
    }
  }

  lemma InStepNext(states: seq<State>, reports: seq<Report>, chosen: seq<map<string, Cid>>, n: nat)
    requires Passes(states, reports, chosen) && n < |reports| && InStep(states[n])
    ensures InStep(states[n + 1])
  {
    PassAt(states, reports, chosen, n);
    InStepStays(states[n], states[n + 1], reports[n], chosen[n]);
  }

  lemma {:induction false} InStepForGood(
    states: seq<State>, reports: seq<Report>, chosen: seq<map<string, Cid>>, i: nat, n: nat)
    requires Passes(states, reports, chosen) && i <= n <= |reports| && InStep(states[i])
    ensures InStep(states[n])
  {
    if i < n {
      InStepForGood(states, reports, chosen, i, n - 1);
      InStepNext(states, reports, chosen, n - 1);
    }
  }

  // From any state, enough error-free passes settle, and what they settle in is the one-to-one
  // correspondence exactly if at the start no active row's container had a shadow.
  lemma SettlesExactly(
    k: Setup, states: seq<State>, reports: seq<Report>, chosen: seq<map<string, Cid>>)
    requires Passes(states, reports, chosen) && Core(k, states[0]) && |reports| > Size(states[0])
    ensures
      var last := states[|reports|];
      InStep(last) && (OneToOne(last) <==> !Shadowed(states[0]))
  {
    CoreTied(k, states[0]);
    var i := PassesSettle(states, reports, chosen);
    InStepForGood(states, reports, chosen, i, |reports|);
    ShadowsKeptThroughout(states, reports, chosen, |reports|);
    ShadowExact(states[|reports|]);
  }

  // A container that shares the key of an active row is never removed.
  lemma ShadowStays(s: State, t: State, r: Report, chosen: map<string, Cid>, c: Cid)
    requires Pass(s, t, r, chosen)
    ensures c in s.alive && KeyHeld(s, LabelKey(s.issued[c])) ==> c in t.alive
  {
  }

  // After a pass no row misses its container: those removed had keys no active row held.
  lemma NoneMissing(s: State, t: State, r: Report, chosen: map<string, Cid>)
    requires Tied(s) && Pass(s, t, r, chosen)
    ensures MissingIds(t) == {}
  {
    forall id | t.ActiveRow(id) ensures t.rows[id].container in t.alive {
      assert s.ActiveRow(id) && id !in MissingIds(s);
      var c := s.rows[id].container;
      assert LabelKey(s.issued[c]) == RowKey(s.rows[id]);
      ShadowStays(s, t, r, chosen, c);
    }
  }

  lemma SecondPassInStep(t: State, u: State, r: Report, chosen: map<string, Cid>)
    requires Pass(t, u, r, chosen) && MissingIds(t) == {} && MissingIds(u) == {} && UniqueKeys(t)
    ensures InStep(u) && UniqueKeys(u)
  {
    assert u.rows == t.rows;
    forall c | c in u.alive ensures KeyHeld(u, LabelKey(u.issued[c])) {
      var key := LabelKey(t.issued[c]);
      assert chosen[key] == c;
      VictimOf(t, chosen, key);
      var id :| t.ActiveRow(id) && RowKey(t.rows[id]) == key;
      assert u.ActiveRow(id);
    }
  }

  // With one container per key, two passes bring rows and containers into correspondence and every
  // later pass changes nothing.
  lemma TwoPassesSuffice(
    k: Setup, s: State, t: State, u: State, v: State, r1: Report, r2: Report, r3: Report,
    ch1: map<string, Cid>, ch2: map<string, Cid>, ch3: map<string, Cid>)
    requires Core(k, s) && UniqueKeys(s)
    requires Pass(s, t, r1, ch1) && Pass(t, u, r2, ch2) && Pass(u, v, r3, ch3)
    ensures OneToOne(u)
    ensures r3 == Report(0, 0) && v.rows == u.rows && v.alive == u.alive
  {
    CoreTied(k, s);
    PassTied(s, t, r1, ch1);
    PassTied(t, u, r2, ch2);
    NoneMissing(s, t, r1, ch1);
    NoneMissing(t, u, r2, ch2);
    SecondPassInStep(t, u, r2, ch2);
    InStepExact(u);
    EmptyReport(u, v, r3, ch3);
  }

  // ---- A shadow can be reached ----------------------------------------------------------------

  // A failed start that leaves its container behind, then a start that succeeds.
  function ShadowEvents(row: Row, w: Actor): seq<Event> {
    [Lock, Launch(0, Container(row.challenge, row.user, 0, w)), Unlock, Lock,
     Launch(1, Container(row.challenge, row.user, row.port, w)), Insert(0, row), Unlock]
  }

  function Replay(s: State, w: Actor, events: seq<Event>): seq<Entry>
    decreases |events|
  {
    if events == [] then []
    else
      var t := Apply(s, w, events[0]);
      [Entry(w, events[0], t)] + Replay(t, w, events[1..])
  }

  ghost predicate AllEnabled(k: Setup, s: State, w: Actor, events: seq<Event>)
    decreases |events|
  {
    events == [] || (Enabled(k, s, w, events[0]) && AllEnabled(k, Apply(s, w, events[0]), w, events[1..]))
  }

  function Outcome(s: State, w: Actor, events: seq<Event>): State
    decreases |events|
  {
    if events == [] then s else Outcome(Apply(s, w, events[0]), w, events[1..])
  }

  lemma {:induction false} ReplayRuns(k: Setup, s: State, w: Actor, events: seq<Event>)
    requires AllEnabled(k, s, w, events)
    ensures
      var log := Replay(s, w, events);
      IsRun(k, s, log) && StateAt(s, log, |log|) == Outcome(s, w, events)
    decreases |events|
  {
    if events != [] {
      var t, rest := Apply(s, w, events[0]), events[1..];
      var tail := Replay(t, w, rest);
      ReplayRuns(k, t, w, rest);
      var log := Replay(s, w, events);
      assert log == [Entry(w, events[0], t)] + tail;
      forall i: nat | i < |log| ensures StepAt(k, s, log, i) {
        if i > 0 {
          assert StepAt(k, t, tail, i - 1);
          assert StateAt(s, log, i) == StateAt(t, tail, i - 1);
        }
      }
    }
  }

  // One step of a replay.
  lemma ReplayStep(k: Setup, s: State, w: Actor, e: Event, rest: seq<Event>)
    requires Enabled(k, s, w, e) && AllEnabled(k, Apply(s, w, e), w, rest)
    ensures AllEnabled(k, s, w, [e] + rest) && Outcome(s, w, [e] + rest) == Outcome(Apply(s, w, e), w, rest)
  {
    assert ([e] + rest)[1..] == rest;
  }

  // The state two starts lead to, the first of which failed.
  function ShadowState(row: Row, w: Actor, now: int): State {
    State(map[0 := row], 1,
          map[0 := Container(row.challenge, row.user, 0, w), 1 := Container(row.challenge, row.user, row.port, w)],
          {0, 1}, map[], now, now)
  }

  lemma ShadowStarts(k: Setup, row: Row, w: Actor, now: int)
    requires w.Worker? && w.process == 0 && NewRow(k, row) && row.container == 1 && row.startedAt == now
    requires k.Pooled() ==> k.portMin <= row.port <= k.portMax
    ensures
      var s := State(map[], 0, map[], {}, map[], now, now);
      AllEnabled(k, s, w, ShadowEvents(row, w)) && Outcome(s, w, ShadowEvents(row, w)) == ShadowState(row, w, now)
  {
    var c0, c1 := Container(row.challenge, row.user, 0, w), Container(row.challenge, row.user, row.port, w);
    var held := map[0 := w.thread];
    var s0 := State(map[], 0, map[], {}, map[], now, now);
    var s1 := s0.(holder := held);
    var s2 := s1.(issued := map[0 := c0], alive := {0});
    var s3 := s2.(holder := map[]);
    var s4 := s2;
    var s5 := s4.(issued := map[0 := c0, 1 := c1], alive := {0, 1});
    var s6 := s5.(rows := map[0 := row], nextRow := 1);
    var s7 := ShadowState(row, w, now);
    assert Apply(s0, w, Lock) == s1;
    assert Apply(s1, w, Launch(0, c0)) == s2;
    assert Apply(s2, w, Unlock) == s3;
    assert Apply(s3, w, Lock) == s4;
    assert Apply(s4, w, Launch(1, c1)) == s5;
    assert s5.ActiveOf(row.challenge) == {};
    assert Apply(s5, w, Insert(0, row)) == s6;
    assert Apply(s6, w, Unlock) == s7;
    ReplayStep(k, s6, w, Unlock, []);
    ReplayStep(k, s5, w, Insert(0, row), [Unlock]);
    ReplayStep(k, s4, w, Launch(1, c1), [Insert(0, row), Unlock]);
    ReplayStep(k, s3, w, Lock, [Launch(1, c1), Insert(0, row), Unlock]);
    ReplayStep(k, s2, w, Unlock, [Lock, Launch(1, c1), Insert(0, row), Unlock]);
    ReplayStep(k, s1, w, Launch(0, c0), [Unlock, Lock, Launch(1, c1), Insert(0, row), Unlock]);
    ReplayStep(k, s0, w, Lock, [Launch(0, c0), Unlock, Lock, Launch(1, c1), Insert(0, row), Unlock]);
  }

  // For every configured challenge and user, two starts from the empty table, the first of which
  // fails after its container runs, reach a state in which nothing is left for reconciliation to do
  // and yet the left container stays without a record.
  lemma ShadowReachable(k: Setup, challenge: string, user: int, now: int) returns (log: seq<Entry>)
    requires k.Knows(challenge)
    ensures
      var origin := State(map[], 0, map[], {}, map[], now, now);
      && Inv(k, origin) && IsRun(k, origin, log)
      && var s := StateAt(origin, log, |log|);
      && InStep(s) && Shadowed(s) && !UniqueKeys(s) && !OneToOne(s)
  {
    var origin, w := State(map[], 0, map[], {}, map[], now, now), Worker(0, 0);
    var port := if k.Pooled() then k.portMin else 0;
    var row := Row(challenge, user, Running, port, 0, now, now + k.configs[challenge].ttl, None, 1);
    var s := ShadowState(row, w, now);
    FreshDeployment(k, now);
    ShadowStarts(k, row, w, now);
    log := Replay(origin, w, ShadowEvents(row, w));
    ReplayRuns(k, origin, w, ShadowEvents(row, w));
    assert s.ActiveRow(0) && RowKey(s.rows[0]) == KeyOf(challenge, user);
    assert Shadows(s, 0, 0);
    assert !HasRow(s, 0);
  }
}
