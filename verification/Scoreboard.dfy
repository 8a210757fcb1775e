// The scoreboard: points and last solve per player, ordered and ranked.

module Scoreboard {
  import opened Options
  import opened Sets
  import opened Submissions

  datatype Entry = Entry(rank: nat, user: int, score: int, last: Option<int>)

  // MAX(solved_at)
  function LastSolve(solves: seq<Solve>, user: int): Option<int> {
    if solves == [] then None
    else
      var last, before := solves[|solves| - 1], LastSolve(solves[..|solves| - 1], user);
      if last.user != user then before
      else if before.Some? && before.value > last.at then before
      else Some(last.at)
  }

  // There is none exactly if the user solved nothing; otherwise it is the time of one of the user's
  // solves, and none of them is later.
  lemma {:induction false} LastSolveExact(solves: seq<Solve>, user: int)
    ensures
      var last := LastSolve(solves, user);
      && (last.None? <==> forall v | v in solves :: v.user != user)
      && (last.Some? ==> exists v :: v in solves && v.user == user && v.at == last.value)
      && (last.Some? ==> forall v | v in solves && v.user == user :: v.at <= last.value)
  {
    if solves != [] {
      var front, end := solves[..|solves| - 1], solves[|solves| - 1];
      LastSolveExact(front, user);
      assert solves == front + [end];
      assert forall v :: v in solves <==> v in front || v == end;
    }
  }

  // The row of a player, not ranked yet.
  function Standing(solves: seq<Solve>, user: int): Entry {
    Entry(0, user, Score(solves, user), LastSolve(solves, user))
  }

  // last_solve_at ASC NULLS LAST
  predicate Sooner(a: Option<int>, b: Option<int>) {
    a.Some? && (b.None? || a.value < b.value)
  }

  // score DESC, last_solve_at ASC NULLS LAST, id ASC
  predicate Before(a: Entry, b: Entry) {
    || a.score > b.score
    || (a.score == b.score && Sooner(a.last, b.last))
    || (a.score == b.score && a.last == b.last && a.user < b.user)
  }

  lemma BeforeStrictTotal(a: Entry, b: Entry, c: Entry)
    ensures !Before(a, a)
    ensures Before(a, b) && Before(b, c) ==> Before(a, c)
    ensures a.user != b.user ==> (Before(a, b) <==> !Before(b, a))
  {
  }

  // ---- The listing ----------------------------------------------------------------------------

  predicate Sorted(entries: seq<Entry>) {
    forall i, k | 0 <= i < k < |entries| :: Before(entries[i], entries[k])
  }

  function Standings(solves: seq<Solve>, players: set<int>): set<Entry> {
    set u | u in players :: Standing(solves, u)
  }

  function Elements(entries: seq<Entry>): set<Entry> { set e | e in entries }

  ghost predicate IsBoard(solves: seq<Solve>, players: set<int>, entries: seq<Entry>) {
    Sorted(entries) && Elements(entries) == Standings(solves, players)
  }

  // Only one listing is in order.
  lemma {:induction false} BoardUnique(x: seq<Entry>, y: seq<Entry>)
    requires Sorted(x) && Sorted(y) && Elements(x) == Elements(y)
    ensures x == y
    decreases |x|
  {
    if x == [] {
      EmptyAlike(x, y);
    } else {
      if y == [] { EmptyAlike(y, x); }
      FirstAlike(x, y);
      RestAlike(x, y);
      BoardUnique(x[1..], y[1..]);
    }
  }

  lemma EmptyAlike(x: seq<Entry>, y: seq<Entry>)
    requires Elements(x) == Elements(y) && x == []
    ensures y == []
  {
    assert Elements(x) == {};
    if y != [] { Inhabited(y); }
  }

  lemma Inhabited(x: seq<Entry>)
    requires x != []
    ensures Elements(x) != {}
  {
    assert x[0] in Elements(x);
  }

  lemma FirstAlike(x: seq<Entry>, y: seq<Entry>)
    requires Sorted(x) && Sorted(y) && Elements(x) == Elements(y) && x != [] && y != []
    ensures x[0] == y[0]
  {
    assert x[0] in Elements(y) && y[0] in Elements(x);
    var i :| 0 <= i < |y| && y[i] == x[0];
    var k :| 0 <= k < |x| && x[k] == y[0];
    assert i > 0 ==> Before(y[0], x[0]);
    assert k > 0 ==> Before(x[0], y[0]);
    BeforeStrictTotal(x[0], y[0], x[0]);
  }

  lemma RestAlike(x: seq<Entry>, y: seq<Entry>)
    requires Sorted(x) && Sorted(y) && Elements(x) == Elements(y) && x != [] && y != [] && x[0] == y[0]
    ensures Elements(x[1..]) == Elements(y[1..])
  {
    TailElements(x);
    TailElements(y);
  }

  lemma TailElements(x: seq<Entry>)
    requires Sorted(x) && x != []
    ensures Elements(x[1..]) == Elements(x) - {x[0]}
  {
    forall e ensures e in Elements(x[1..]) <==> e in Elements(x) && e != x[0] {
      if e in x[1..] {
        var i :| 1 <= i < |x| && x[i] == e;
        BeforeStrictTotal(x[0], e, e);
      }
    }
  }

  // ---- Ranks ----------------------------------------------------------------------------------

  function Ahead(solves: seq<Solve>, players: set<int>, user: int): set<int> {
    set v | v in players && Before(Standing(solves, v), Standing(solves, user))
  }

  // The rank of a player: one more than the players ahead.
  function Rank(solves: seq<Solve>, players: set<int>, user: int): nat {
    1 + |Ahead(solves, players, user)|
  }

  function Users(entries: seq<Entry>): set<int> { set e | e in entries :: e.user }

  lemma {:induction false} UsersCount(entries: seq<Entry>)
    requires forall i, k | 0 <= i < k < |entries| :: entries[i].user != entries[k].user
    ensures |Users(entries)| == |entries|
    decreases |entries|
  {
    if entries != [] {
      var most, last := entries[..|entries| - 1], entries[|entries| - 1];
      UsersCount(most);
      assert entries == most + [last];
      assert Users(entries) == Users(most) + {last.user};
      assert last.user !in Users(most);
    }
  }

  // The place in the listing is the rank.
  lemma PlaceIsRank(solves: seq<Solve>, players: set<int>, entries: seq<Entry>, i: nat)
    requires IsBoard(solves, players, entries) && i < |entries|
    ensures Rank(solves, players, entries[i].user) == i + 1
  {
    EntriesStand(solves, players, entries);
    var user := entries[i].user;
    var ahead := Ahead(solves, players, user);
    forall v ensures v in ahead <==> v in Users(entries[..i]) {
      if v in ahead {
        assert Standing(solves, v) in Elements(entries);
        var k :| 0 <= k < |entries| && entries[k] == Standing(solves, v);
        BeforeStrictTotal(entries[i], entries[k], entries[i]);
        assert k < i;
        assert entries[..i][k].user == v;
      }
      if v in Users(entries[..i]) {
        var k :| 0 <= k < i && entries[k].user == v;
        assert Before(entries[k], entries[i]);
      }
    }
    assert ahead == Users(entries[..i]);
    UsersCount(entries[..i]);
  }

  lemma EntriesStand(solves: seq<Solve>, players: set<int>, entries: seq<Entry>)
    requires IsBoard(solves, players, entries)
    ensures forall i | 0 <= i < |entries| :: entries[i].user in players && entries[i] == Standing(solves, entries[i].user)
    ensures forall i, k | 0 <= i < k < |entries| :: entries[i].user != entries[k].user
  {
    forall i | 0 <= i < |entries| ensures entries[i].user in players && entries[i] == Standing(solves, entries[i].user) {
      assert entries[i] in Elements(entries);
    }
    forall i, k | 0 <= i < k < |entries| ensures entries[i].user != entries[k].user {
      BeforeStrictTotal(entries[i], entries[k], entries[i]);
    }
  }

  // More points come first.
  lemma PointsDecide(solves: seq<Solve>, players: set<int>, u: int, v: int)
    requires u in players && v in players && Score(solves, u) > Score(solves, v)
    ensures Rank(solves, players, u) < Rank(solves, players, v)
  {
    AheadRanked(solves, players, u, v);
  }

  // Of equal points, those come first who had them earlier: whose every solve is older than some
  // solve of the other, or if the other has no solve.
  lemma TimeDecides(solves: seq<Solve>, players: set<int>, u: int, v: int)
    requires u in players && v in players && Score(solves, u) == Score(solves, v)
    requires exists a :: a in solves && a.user == u
    requires
      || (exists b :: b in solves && b.user == v && forall a | a in solves && a.user == u :: a.at < b.at)
      || (forall b | b in solves :: b.user != v)
    ensures Rank(solves, players, u) < Rank(solves, players, v)
  {
    LastSolveExact(solves, u);
    LastSolveExact(solves, v);
    AheadRanked(solves, players, u, v);
  }

  // Of equal points and equal times, the smaller id comes first.
  lemma IdDecides(solves: seq<Solve>, players: set<int>, u: int, v: int)
    requires u in players && v in players && Score(solves, u) == Score(solves, v) && u < v
    requires
      || (exists a, b :: a in solves && b in solves && a.user == u && b.user == v && a.at == b.at
                         && forall c | c in solves && c.user in {u, v} :: c.at <= a.at)
      || (forall c | c in solves :: c.user !in {u, v})
    ensures Rank(solves, players, u) < Rank(solves, players, v)
  {
    LastSolveExact(solves, u);
    LastSolveExact(solves, v);
    AheadRanked(solves, players, u, v);
  }

  lemma AheadRanked(solves: seq<Solve>, players: set<int>, u: int, v: int)
    requires u in players && Before(Standing(solves, u), Standing(solves, v))
    ensures Rank(solves, players, u) < Rank(solves, players, v)
  {
    var su, sv := Standing(solves, u), Standing(solves, v);
    BeforeStrictTotal(su, su, su);
    forall w | w in Ahead(solves, players, u) ensures w in Ahead(solves, players, v) {
      BeforeStrictTotal(Standing(solves, w), su, sv);
    }
    SubsetSize(Ahead(solves, players, u) + {u}, Ahead(solves, players, v));
  }

  // Points are those of the user's own solves.
  lemma {:induction false} ScoreOfOthers(solves: seq<Solve>, user: int)
    requires forall v | v in solves :: v.user != user
    ensures Score(solves, user) == 0
  {
    if solves != [] {
      assert forall v | v in solves[..|solves| - 1] :: v in solves;
      ScoreOfOthers(solves[..|solves| - 1], user);
    }
  }

  // ListScoreboard
  method ListScoreboard(solves: seq<Solve>, players: set<int>) returns (entries: seq<Entry>)
    ensures IsBoard(solves, players, entries) && |entries| == |players|
  {
    entries := [];
    var rest := players;
    while rest != {}
      invariant rest <= players && Sorted(entries)
      invariant Elements(entries) == Standings(solves, players - rest)
      invariant |entries| + |rest| == |players|
      invariant forall e, u | e in entries && u in rest :: Before(e, Standing(solves, u))
    {
      LeaderExists(solves, rest);
      var u :| u in rest && Leader(solves, rest, u);
      SortedMore(entries, Standing(solves, u));
      StandingsMore(solves, players - rest, u);
      assert players - (rest - {u}) == (players - rest) + {u};
      entries := entries + [Standing(solves, u)];
      rest := rest - {u};
    }
    assert players - rest == players;
  }

  lemma SortedMore(entries: seq<Entry>, e: Entry)
    requires Sorted(entries) && forall d | d in entries :: Before(d, e)
    ensures Sorted(entries + [e]) && Elements(entries + [e]) == Elements(entries) + {e}
  {
    assert forall i | 0 <= i < |entries| :: entries[i] in entries;
  }

  lemma StandingsMore(solves: seq<Solve>, players: set<int>, u: int)
    ensures Standings(solves, players + {u}) == Standings(solves, players) + {Standing(solves, u)}
  {
  }

  predicate Leader(solves: seq<Solve>, players: set<int>, u: int) {
    u in players && forall v | v in players :: v == u || Before(Standing(solves, u), Standing(solves, v))
  }

  lemma {:induction false} LeaderExists(solves: seq<Solve>, players: set<int>)
    requires players != {}
    ensures exists u :: Leader(solves, players, u)
  {
    var u := Member(players);
    var rest := players - {u};
    assert forall v | v in players :: v == u || v in rest;
    if rest == {} {
      assert Leader(solves, players, u);
    } else {
      LeaderExists(solves, rest);
      var w :| Leader(solves, rest, w);
      var best := if Before(Standing(solves, u), Standing(solves, w)) then u else w;
      forall v | v in players ensures v == best || Before(Standing(solves, best), Standing(solves, v)) {
        BeforeStrictTotal(Standing(solves, u), Standing(solves, w), Standing(solves, v));
      }
      assert Leader(solves, players, best);
    }
  }

  // Service.Scoreboard: ranks are written into the listing.
  method RankedScoreboard(solves: seq<Solve>, players: set<int>) returns (entries: seq<Entry>)
    ensures |entries| == |players| && Users(entries) == players
    ensures forall e | e in entries :: e == Standing(solves, e.user).(rank := Rank(solves, players, e.user))
    ensures forall i | 0 <= i < |entries| :: entries[i].rank == i + 1
  {
    var listed := ListScoreboard(solves, players);
    entries := listed;
    var i := 0;
    while i < |entries|
      invariant i <= |entries| == |listed|
      invariant forall k | 0 <= k < |entries| :: entries[k] == if k < i then listed[k].(rank := k + 1) else listed[k]
    {
      entries := entries[i := entries[i].(rank := i + 1)];
      i := i + 1;
    }
    RanksWritten(solves, players, listed, entries);
  }

  lemma RanksWritten(solves: seq<Solve>, players: set<int>, listed: seq<Entry>, entries: seq<Entry>)
    requires IsBoard(solves, players, listed) && |entries| == |listed|
    requires forall k | 0 <= k < |entries| :: entries[k] == listed[k].(rank := k + 1)
    ensures Users(entries) == players
    ensures forall e | e in entries :: e == Standing(solves, e.user).(rank := Rank(solves, players, e.user))
  {
    EntriesStand(solves, players, listed);
    forall e | e in entries ensures e == Standing(solves, e.user).(rank := Rank(solves, players, e.user)) {
      var k :| 0 <= k < |entries| && entries[k] == e;
      PlaceIsRank(solves, players, listed, k);
    }
    forall u | u in players ensures u in Users(entries) {
      assert Standing(solves, u) in Elements(listed);
      var k :| 0 <= k < |listed| && listed[k] == Standing(solves, u);
      assert entries[k] in entries && entries[k].user == u;
    }
  }

  // ---- One more solve -------------------------------------------------------------------------

  lemma OnlyOneMoves(solves: seq<Solve>, s: Solve, user: int)
    requires user != s.user
    ensures Standing(solves + [s], user) == Standing(solves, user)
  {
    assert (solves + [s])[..|solves|] == solves;
  }

  lemma SolverGains(solves: seq<Solve>, s: Solve)
    ensures Score(solves + [s], s.user) == Score(solves, s.user) + s.points
  {
    assert (solves + [s])[..|solves|] == solves;
  }

  // A solve worth points never worsens the rank of its user, keeps the order of all others, and
  // moves each of them down by one place at most: exactly when the solver overtakes.
  lemma SolveMoves(solves: seq<Solve>, s: Solve, players: set<int>, user: int)
    requires s.points > 0 && s.user in players && user in players
    ensures
      var after := solves + [s];
      if user == s.user then Rank(after, players, user) <= Rank(solves, players, user)
      else
        && Ahead(after, players, user) - {s.user} == Ahead(solves, players, user) - {s.user}
        && (Rank(after, players, user) == Rank(solves, players, user) + 1 <==>
            s.user in Ahead(after, players, user) && s.user !in Ahead(solves, players, user))
        && Rank(solves, players, user) <= Rank(after, players, user) <= Rank(solves, players, user) + 1
  {
    var after := solves + [s];
    var prior, present := Ahead(solves, players, user), Ahead(after, players, user);
    SolverGains(solves, s);
    forall v | v in players && v != s.user ensures Standing(after, v) == Standing(solves, v) {
      OnlyOneMoves(solves, s, v);
    }
    if user == s.user {
      assert s.user !in present by { BeforeStrictTotal(Standing(after, user), Standing(after, user), Standing(after, user)); }
      assert present <= prior;
      SubsetSize(present, prior);
    } else if s.user in prior {
      assert present == prior;
    } else if s.user in present {
      assert present == prior + {s.user};
    } else {
      assert present == prior;
    }
  }
}
