// Flag submission: three separate statements per request, no lock, one unique index.

module Submissions {
  import opened Options
  import opened SpecText
  import opened Spec

  datatype Puzzle = Puzzle(id: nat, kind: string, flag: string, points: int)

  // The regular-expression library.
  datatype Judge = Judge(compiles: string -> bool, matches: (string, string) -> bool)

  // evaluateFlag; None where the strategy of the challenge is invalid.
  function Evaluate(j: Judge, p: Puzzle, submitted: string): Option<bool> {
    match FlagType(p.kind, p.flag, j.compiles)
    case None => None
    case Some(kind) =>
      if kind == "static" then Some(submitted == p.flag)
      else if kind == "case_insensitive" then Some(Folded(submitted) == Folded(p.flag))
      else Some(j.matches(Trim(p.flag), submitted))
  }

  // The challenge cannot be judged: its kind is unknown, or its pattern is none.
  predicate Unjudgeable(j: Judge, p: Puzzle) {
    var kind := Lower(Trim(p.kind));
    kind !in {"", "static", "case_insensitive", "regex"} || (kind == "regex" && !j.compiles(Trim(p.flag)))
  }

  // The text is the flag, by the kind of the challenge; one without kind is static.
  predicate Fits(j: Judge, p: Puzzle, submitted: string) {
    var kind := Lower(Trim(p.kind));
    && (kind in {"", "static"} ==> submitted == p.flag)
    && (kind == "case_insensitive" ==> AlikeButCase(Trim(submitted), Trim(p.flag)))
    && (kind == "regex" ==> j.matches(Trim(p.flag), submitted))
  }

  lemma EvaluateExact(j: Judge, p: Puzzle, submitted: string)
    ensures Evaluate(j, p, submitted) == if Unjudgeable(j, p) then None else Some(Fits(j, p, submitted))
  {
    LiteralFolded("static");
    LowerAlike(Trim(submitted), Trim(p.flag));
  }

  // Rows; author is the request that inserted the submission.
  datatype Submission = Submission(challenge: nat, user: int, text: string, correct: bool, author: nat)

  datatype Solve = Solve(challenge: nat, user: int, submission: nat, points: int, at: int)

  // SubmitResult. An accepted flag carries the time of its solve, or None for the zero time the
  // repository returns when the unique index refused the row.
  datatype Reply =
    | Failed
    | Incorrect(submission: nat)
    | AlreadySolved(submission: nat)
    | Accepted(submission: nat, points: int, at: Option<int>)

  // How far a request came.
  datatype Phase = Judged(correct: bool) | Recorded(submission: nat) | Checked(submission: nat) | Done(reply: Reply)

  datatype Request = Request(user: int, puzzle: Puzzle, text: string, phase: Phase) {
    predicate For(challenge: nat, user: int) { this.user == user && puzzle.id == challenge }

    predicate Open() { !phase.Done? }

    predicate Credited() { phase.Done? && phase.reply.Accepted? }

    // Reported as a solve without being one.
    predicate Lost() { Credited() && phase.reply.at.None? }

    function Submitted(): Option<nat> {
      match phase
      case Judged(_) => None
      case Recorded(s) => Some(s)
      case Checked(s) => Some(s)
      case Done(Failed) => None
      case Done(r) => Some(r.submission)
    }
  }

  datatype State = State(submissions: seq<Submission>, solves: seq<Solve>, requests: seq<Request>, now: int) {
    predicate Solved(challenge: nat, user: int) {
      exists i :: 0 <= i < |solves| && solves[i].challenge == challenge && solves[i].user == user
    }
  }

  const EMPTY := State([], [], [], 0)

  datatype Event =
    | Begin(user: int, puzzle: Puzzle, text: string, correct: bool)
    | Record(q: nat)
    | Check(q: nat)
    | Award(q: nat)
    | Fail(q: nat)
    | Tick(now: int)

  predicate Enabled(j: Judge, s: State, e: Event) {
    match e
    case Begin(_, p, text, correct) => Evaluate(j, p, text) == Some(correct)
    case Record(q) => q < |s.requests| && s.requests[q].phase.Judged?
    case Check(q) => q < |s.requests| && s.requests[q].phase.Recorded?
    case Award(q) => q < |s.requests| && s.requests[q].phase.Checked?
    case Fail(q) => q < |s.requests| && s.requests[q].Open()
    case Tick(now) => s.now <= now
  }

  function With(s: State, q: nat, phase: Phase): State
    requires q < |s.requests|
  {
    s.(requests := s.requests[q := s.requests[q].(phase := phase)])
  }

  function Apply(j: Judge, s: State, e: Event): State
    requires Enabled(j, s, e)
  {
    match e
    case Begin(user, p, text, correct) => s.(requests := s.requests + [Request(user, p, text, Judged(correct))])
    case Record(q) =>
      var r := s.requests[q];
      var id := |s.submissions|;
      var t := s.(submissions := s.submissions + [Submission(r.puzzle.id, r.user, r.text, r.phase.correct, q)]);
      With(t, q, if r.phase.correct then Recorded(id) else Done(Incorrect(id)))
    case Check(q) =>
      var r := s.requests[q];
      var id := r.phase.submission;
      With(s, q, if s.Solved(r.puzzle.id, r.user) then Done(AlreadySolved(id)) else Checked(id))
    case Award(q) =>
      var r := s.requests[q];
      var id, points := r.phase.submission, r.puzzle.points;
      if s.Solved(r.puzzle.id, r.user) then With(s, q, Done(Accepted(id, points, None)))
      else
        var t := s.(solves := s.solves + [Solve(r.puzzle.id, r.user, id, points, s.now)]);
        With(t, q, Done(Accepted(id, points, Some(s.now))))
    case Fail(q) => With(s, q, Done(Failed))
    case Tick(now) => s.(now := now)
  }

  // ---- What every run keeps -------------------------------------------------------------------

  ghost predicate OneSolveEach(s: State) {
    forall i, k | 0 <= i < k < |s.solves| ::
      s.solves[i].challenge != s.solves[k].challenge || s.solves[i].user != s.solves[k].user
  }

  predicate Earned(s: State, v: Solve) {
    && v.submission < |s.submissions|
    && var b := s.submissions[v.submission];
    && b.correct && b.challenge == v.challenge && b.user == v.user
    && b.author < |s.requests|
    && s.requests[b.author].For(v.challenge, v.user)
    && s.requests[b.author].phase == Done(Accepted(v.submission, v.points, Some(v.at)))
  }

  // Every solve is owed to a correct submission by the same user for the same challenge.
  ghost predicate SolvesEarned(s: State) {
    forall v | v in s.solves :: Earned(s, v)
  }

  predicate Honest(s: State, q: nat)
    requires q < |s.requests|
  {
    var r := s.requests[q];
    && (r.Credited() ==> r.phase.reply.points == r.puzzle.points)
    && match r.Submitted()
    case None => true
    case Some(b) =>
      && b < |s.submissions|
      && s.submissions[b] == Submission(r.puzzle.id, r.user, r.text, r.phase != Done(Incorrect(b)), q)
  }

  // Every request tells its own submission and the points of its challenge, and what it reports about it is so.
  ghost predicate RequestsHonest(s: State) {
    && (forall q | 0 <= q < |s.requests| :: Honest(s, q))
    && (forall r | r in s.requests && r.phase.Done? && (r.phase.reply.AlreadySolved? || r.phase.reply.Accepted?) ::
          s.Solved(r.puzzle.id, r.user))
    && (forall r | r in s.requests && r.Credited() && !r.Lost() ::
          Solve(r.puzzle.id, r.user, r.phase.reply.submission, r.phase.reply.points, r.phase.reply.at.value) in s.solves)
  }

  ghost predicate PastOnly(s: State) {
    forall v | v in s.solves :: v.at <= s.now
  }

  // ---- Points ---------------------------------------------------------------------------------

  function Score(solves: seq<Solve>, user: int): int {
    if solves == [] then 0
    else
      var last := solves[|solves| - 1];
      Score(solves[..|solves| - 1], user) + if last.user == user then last.points else 0
  }

  function Points(r: Request, user: int, lost: bool): int {
    if r.Credited() && r.user == user && r.Lost() == lost then r.phase.reply.points else 0
  }

  // Points reported to a user, by answers that told the truth or by those that did not.
  function Reported(requests: seq<Request>, user: int, lost: bool): int {
    if requests == [] then 0
    else Reported(requests[..|requests| - 1], user, lost) + Points(requests[|requests| - 1], user, lost)
  }

  lemma {:induction false} ReportedUpdate(requests: seq<Request>, q: nat, r: Request, user: int, lost: bool)
    requires q < |requests|
    ensures Reported(requests[q := r], user, lost) ==
            Reported(requests, user, lost) - Points(requests[q], user, lost) + Points(r, user, lost)
  {
    var n := |requests| - 1;
    if q == n {
      assert requests[q := r][..n] == requests[..n];
    } else {
      ReportedUpdate(requests[..n], q, r, user, lost);
      assert requests[q := r][..n] == requests[..n][q := r];
    }
  }

  // What was reported truthfully is the score.
  ghost predicate Conserved(s: State) {
    forall user :: Reported(s.requests, user, false) == Score(s.solves, user)
  }

  ghost predicate Inv(s: State) {
    OneSolveEach(s) && SolvesEarned(s) && RequestsHonest(s) && PastOnly(s) && Conserved(s)
  }

  lemma SolvesStep(j: Judge, s: State, e: Event)
    requires OneSolveEach(s) && PastOnly(s) && Enabled(j, s, e)
    ensures OneSolveEach(Apply(j, s, e)) && PastOnly(Apply(j, s, e))
  {
  }

  lemma EarnedStep(j: Judge, s: State, e: Event)
    requires SolvesEarned(s) && RequestsHonest(s) && Enabled(j, s, e)
    ensures SolvesEarned(Apply(j, s, e))
  {
    var t := Apply(j, s, e);
    forall v | v in t.solves ensures Earned(t, v) {
      if v in s.solves {
        assert Earned(s, v);
      } else {
        assert Honest(s, e.q);
      }
    }
  }

  lemma HonestStep(j: Judge, s: State, e: Event)
    requires RequestsHonest(s) && Enabled(j, s, e)
    ensures forall q | 0 <= q < |Apply(j, s, e).requests| :: Honest(Apply(j, s, e), q)
  {
    var t := Apply(j, s, e);
    forall q | 0 <= q < |t.requests| ensures Honest(t, q) {
      if q < |s.requests| {
        assert Honest(s, q);
      }
    }
  }

  // What is solved stays solved.
  lemma SolvedStays(s: State, t: State, challenge: nat, user: int)
    requires s.solves <= t.solves && s.Solved(challenge, user)
    ensures t.Solved(challenge, user)
  {
    var i :| 0 <= i < |s.solves| && s.solves[i].challenge == challenge && s.solves[i].user == user;
    assert t.solves[i] == s.solves[i];
  }

  lemma SolvesGrow(j: Judge, s: State, e: Event)
    requires Enabled(j, s, e)
    ensures s.solves <= Apply(j, s, e).solves && s.submissions <= Apply(j, s, e).submissions
    ensures s.now <= Apply(j, s, e).now && |s.requests| <= |Apply(j, s, e).requests|
  {
  }

  lemma ReportsStep(j: Judge, s: State, e: Event)
    requires RequestsHonest(s) && Enabled(j, s, e)
    ensures RequestsHonest(Apply(j, s, e))
  {
    var t := Apply(j, s, e);
    HonestStep(j, s, e);
    SolvesGrow(j, s, e);
    forall r | r in t.requests && r.phase.Done? && (r.phase.reply.AlreadySolved? || r.phase.reply.Accepted?)
      ensures t.Solved(r.puzzle.id, r.user)
    {
      if s.Solved(r.puzzle.id, r.user) {
        SolvedStays(s, t, r.puzzle.id, r.user);
      } else if r !in s.requests {
        assert t.solves[|s.solves|].challenge == r.puzzle.id && t.solves[|s.solves|].user == r.user;
      }
    }
  }

  lemma ConservedStep(j: Judge, s: State, e: Event)
    requires Conserved(s) && Enabled(j, s, e)
    ensures Conserved(Apply(j, s, e))
  {
    var t := Apply(j, s, e);
    forall user ensures Reported(t.requests, user, false) == Score(t.solves, user) {
      assert Reported(s.requests, user, false) == Score(s.solves, user);
      if e.Begin? {
        assert t.requests[..|s.requests|] == s.requests;
      } else if !e.Tick? {
        ReportedUpdate(s.requests, e.q, t.requests[e.q], user, false);
        if t.solves != s.solves {
          assert t.solves[..|s.solves|] == s.solves;
        }
      }
    }
  }

  lemma InvStep(j: Judge, s: State, e: Event)
    requires Inv(s) && Enabled(j, s, e)
    ensures Inv(Apply(j, s, e))
  {
    SolvesStep(j, s, e);
    EarnedStep(j, s, e);
    ReportsStep(j, s, e);
    ConservedStep(j, s, e);
  }

  // ---- Runs -----------------------------------------------------------------------------------

  // The state after a run; None if some event was not enabled.
  function After(j: Judge, s: State, run: seq<Event>): Option<State>
    decreases |run|
  {
    if run == [] then Some(s)
    else if Enabled(j, s, run[0]) then After(j, Apply(j, s, run[0]), run[1..])
    else None
  }

  // However requests interleave: one solve for each user and challenge at most, each owed to a
  // correct submission of that user for that challenge, and truthful reports add up to the score.
  lemma {:induction false} InvRun(j: Judge, s: State, run: seq<Event>)
    requires Inv(s) && After(j, s, run).Some?
    ensures Inv(After(j, s, run).value)
    decreases |run|
  {
    if run != [] {
      InvStep(j, s, run[0]);
      InvRun(j, Apply(j, s, run[0]), run[1..]);
    }
  }

  // Different solves are owed to different submissions.
  lemma DistinctSubmissions(s: State, i: nat, k: nat)
    requires Inv(s) && i < k < |s.solves|
    ensures s.solves[i].submission != s.solves[k].submission
  {
    assert s.solves[i] in s.solves && s.solves[k] in s.solves;
    assert Earned(s, s.solves[i]) && Earned(s, s.solves[k]);
  }

  // ---- When reports are wrong -----------------------------------------------------------------

  predicate Rivals(s: State, q: nat, p: nat) {
    && q < |s.requests| && p < |s.requests| && q != p
    && s.requests[q].Credited() && s.requests[p].Credited()
    && s.requests[q].For(s.requests[p].puzzle.id, s.requests[p].user)
  }

  function SolveFrom(r: Request): Solve
    requires r.Credited() && !r.Lost()
  {
    Solve(r.puzzle.id, r.user, r.phase.reply.submission, r.phase.reply.points, r.phase.reply.at.value)
  }

  // The solve of a user for a challenge is owed to the request truthfully credited for it.
  lemma TruthfulOwner(s: State, q: nat, v: Solve)
    requires Inv(s) && q < |s.requests| && s.requests[q].Credited() && !s.requests[q].Lost()
    requires v in s.solves && s.requests[q].For(v.challenge, v.user)
    ensures v.submission < |s.submissions| && s.submissions[v.submission].author == q
  {
    assert s.requests[q] in s.requests;
    var w := SolveFrom(s.requests[q]);
    var i :| 0 <= i < |s.solves| && s.solves[i] == v;
    var k :| 0 <= k < |s.solves| && s.solves[k] == w;
    assert i == k;
    assert Honest(s, q);
  }

  // Of two requests credited for the same solve one report is wrong.
  lemma RivalsLose(s: State, q: nat, p: nat)
    requires Inv(s) && Rivals(s, q, p)
    ensures s.requests[q].Lost() || s.requests[p].Lost()
  {
    var r := s.requests[q];
    if !r.Lost() {
      assert r in s.requests;
      TruthfulOwner(s, q, SolveFrom(r));
      if !s.requests[p].Lost() {
        TruthfulOwner(s, p, SolveFrom(r));
      }
    }
  }

  // A wrong report has a rival whose report is right.
  lemma LoserHasRival(s: State, q: nat) returns (p: nat)
    requires Inv(s) && q < |s.requests| && s.requests[q].Lost()
    ensures Rivals(s, q, p) && !s.requests[p].Lost()
  {
    var r := s.requests[q];
    assert r in s.requests;
    assert s.Solved(r.puzzle.id, r.user);
    var i :| 0 <= i < |s.solves| && s.solves[i].challenge == r.puzzle.id && s.solves[i].user == r.user;
    assert s.solves[i] in s.solves && Earned(s, s.solves[i]);
    p := s.submissions[s.solves[i].submission].author;
  }

  // Every challenge a request asked for is worth points.
  predicate PositivePoints(s: State) {
    forall r | r in s.requests :: r.puzzle.points > 0
  }

  lemma {:induction false} LostSum(requests: seq<Request>, user: int)
    requires forall r | r in requests && r.Credited() :: r.phase.reply.points > 0
    ensures Reported(requests, user, true) >= 0
    ensures Reported(requests, user, true) == 0 <==> forall r | r in requests && r.Lost() :: r.user != user
  {
    if requests != [] {
      var most, last := requests[..|requests| - 1], requests[|requests| - 1];
      assert requests == most + [last];
      assert forall r :: r in requests <==> r in most || r == last;
      LostSum(most, user);
    }
  }

  // A user was told as many points as the scoreboard shows exactly when no answer was wrong.
  lemma NothingLostExact(s: State, user: int)
    requires Inv(s) && PositivePoints(s)
    ensures
      Reported(s.requests, user, false) + Reported(s.requests, user, true) == Score(s.solves, user) <==>
      forall r | r in s.requests && r.Lost() :: r.user != user
  {
    forall r | r in s.requests && r.Credited() ensures r.phase.reply.points > 0 {
      var q :| 0 <= q < |s.requests| && s.requests[q] == r;
      assert Honest(s, q);
    }
    LostSum(s.requests, user);
  }

  // ---- The schedules that make reports wrong --------------------------------------------------

  // What a request was started for never changes, and an answer is final.
  lemma {:induction false} RequestsStay(j: Judge, s: State, run: seq<Event>, q: nat)
    requires After(j, s, run).Some? && q < |s.requests|
    ensures
      var t := After(j, s, run).value;
      && |s.requests| <= |t.requests|
      && t.requests[q] == s.requests[q].(phase := t.requests[q].phase)
      && (!s.requests[q].Open() ==> t.requests[q] == s.requests[q])
    decreases |run|
  {
    if run != [] {
      RequestsStay(j, Apply(j, s, run[0]), run[1..], q);
    }
  }

  // Event e solves the challenge that request q asks for, in another request of the same user. Only
  // whom and what the requests are for is read from s.
  predicate Overtakes(s: State, e: Event, q: nat) {
    && e.Award? && e.q != q && e.q < |s.requests| && q < |s.requests|
    && s.requests[q].For(s.requests[e.q].puzzle.id, s.requests[e.q].user)
  }

  lemma AwardSolves(j: Judge, s: State, e: Event, challenge: nat, user: int)
    requires Enabled(j, s, e)
    ensures Apply(j, s, e).Solved(challenge, user) <==>
            s.Solved(challenge, user) || (e.Award? && s.requests[e.q].For(challenge, user))
  {
    var t := Apply(j, s, e);
    if s.Solved(challenge, user) {
      SolvesGrow(j, s, e);
      SolvedStays(s, t, challenge, user);
    } else if e.Award? && s.requests[e.q].For(challenge, user) {
      assert t.solves[|s.solves|].challenge == challenge && t.solves[|s.solves|].user == user;
    }
  }

  // While a request waits between its check and its insert, its challenge becomes solved exactly by
  // the inserts of its rivals.
  lemma {:induction false} WhileChecked(j: Judge, s: State, run: seq<Event>, q: nat)
    requires After(j, s, run).Some? && q < |s.requests| && s.requests[q].phase.Checked?
    requires q < |After(j, s, run).value.requests| && After(j, s, run).value.requests[q].phase.Checked?
    ensures
      var t, r := After(j, s, run).value, s.requests[q];
      t.Solved(r.puzzle.id, r.user) <==> s.Solved(r.puzzle.id, r.user) || exists e | e in run :: Overtakes(t, e, q)
    decreases |run|
  {
    if run != [] {
      var e, rest, r := run[0], run[1..], s.requests[q];
      var next := Apply(j, s, e);
      RequestsStay(j, next, rest, q);
      AwardSolves(j, s, e, r.puzzle.id, r.user);
      WhileChecked(j, next, rest, q);
      var t := After(j, s, run).value;
      if e.Award? { RequestsStay(j, s, run, e.q); }
      assert run == [e] + rest;
      assert (exists d | d in run :: Overtakes(t, d, q)) <==> Overtakes(t, e, q) || exists d | d in rest :: Overtakes(t, d, q);
    }
  }

  // A request that found its challenge unsolved is answered wrongly exactly if between its check
  // and its insert another request of the same user inserted the solve.
  lemma WrongExactly(j: Judge, a: seq<Event>, b: seq<Event>, c: seq<Event>, q: nat)
    requires After(j, EMPTY, a + [Check(q)] + b + [Award(q)] + c).Some?
    ensures
      var t := After(j, EMPTY, a + [Check(q)] + b + [Award(q)] + c).value;
      && q < |t.requests| && t.requests[q].Credited()
      && (t.requests[q].Lost() <==> exists e | e in b :: Overtakes(t, e, q))
  {
    var end := [Award(q)] + c;
    assert a + [Check(q)] + b + [Award(q)] + c == a + ([Check(q)] + (b + end));
    var s1 := Reach(j, EMPTY, a, [Check(q)] + (b + end));
    var s2 := Reach(j, s1, [Check(q)], b + end);
    OneEvent(j, s1, Check(q));
    var s3 := Reach(j, s2, b, end);
    var s4 := Reach(j, s3, [Award(q)], c);
    OneEvent(j, s3, Award(q));
    RequestsStay(j, s2, b, q);
    WhileChecked(j, s2, b, q);
    RequestsStay(j, s4, c, q);
    SameOvertakers(j, s2, b, s3, end, q);
  }

  // The state in the middle of a run.
  lemma Reach(j: Judge, s: State, a: seq<Event>, b: seq<Event>) returns (mid: State)
    requires After(j, s, a + b).Some?
    ensures After(j, s, a) == Some(mid) && After(j, mid, b) == After(j, s, a + b)
  {
    Prefix(j, s, a, b);
    mid := After(j, s, a).value;
    AfterConcat(j, s, a, b);
  }

  lemma {:induction false} Prefix(j: Judge, s: State, a: seq<Event>, b: seq<Event>)
    requires After(j, s, a + b).Some?
    ensures After(j, s, a).Some?
    decreases |a|
  {
    if a != [] {
      assert (a + b)[1..] == a[1..] + b;
      Prefix(j, Apply(j, s, a[0]), a[1..], b);
    }
  }

  // The requests a run awards exist, and go on being for the same.
  lemma {:induction false} AwardsInRange(j: Judge, s: State, run: seq<Event>, e: Event)
    requires After(j, s, run).Some? && e in run && e.Award?
    ensures e.q < |After(j, s, run).value.requests|
    decreases |run|
  {
    if e == run[0] {
      RequestsStay(j, s, run, e.q);
    } else {
      AwardsInRange(j, Apply(j, s, run[0]), run[1..], e);
    }
  }

  lemma SameOvertakers(j: Judge, s: State, b: seq<Event>, mid: State, c: seq<Event>, q: nat)
    requires After(j, s, b) == Some(mid) && After(j, mid, c).Some? && q < |mid.requests|
    ensures forall e | e in b :: Overtakes(mid, e, q) <==> Overtakes(After(j, mid, c).value, e, q)
  {
    RequestsStay(j, mid, c, q);
    forall e | e in b && e.Award? ensures Overtakes(mid, e, q) <==> Overtakes(After(j, mid, c).value, e, q) {
      AwardsInRange(j, s, b, e);
      RequestsStay(j, mid, c, e.q);
    }
  }

  // Where a request was credited, and where it was checked before.
  lemma {:induction false} FindAward(j: Judge, run: seq<Event>, q: nat) returns (k: nat)
    requires After(j, EMPTY, run).Some? && q < |After(j, EMPTY, run).value.requests|
    requires After(j, EMPTY, run).value.requests[q].Credited()
    ensures k < |run| && run[k] == Award(q)
    decreases |run|
  {
    assert run != [];
    var front, last := run[..|run| - 1], run[|run| - 1];
    assert run == front + [last];
    var mid := Reach(j, EMPTY, front, [last]);
    assert Enabled(j, mid, last) && After(j, EMPTY, run) == Some(Apply(j, mid, last)) by { OneEvent(j, mid, last); }
    if q < |mid.requests| && mid.requests[q].Credited() {
      k := FindAward(j, front, q);
    } else {
      k := |run| - 1;
    }
  }

  lemma {:induction false} FindCheck(j: Judge, run: seq<Event>, q: nat) returns (i: nat)
    requires After(j, EMPTY, run).Some? && q < |After(j, EMPTY, run).value.requests|
    requires After(j, EMPTY, run).value.requests[q].phase.Checked?
    ensures i < |run| && run[i] == Check(q)
    decreases |run|
  {
    assert run != [];
    var front, last := run[..|run| - 1], run[|run| - 1];
    assert run == front + [last];
    var mid := Reach(j, EMPTY, front, [last]);
    assert Enabled(j, mid, last) && After(j, EMPTY, run) == Some(Apply(j, mid, last)) by { OneEvent(j, mid, last); }
    if q < |mid.requests| && mid.requests[q].phase.Checked? {
      i := FindCheck(j, front, q);
    } else {
      i := |run| - 1;
    }
  }

  lemma OneEvent(j: Judge, s: State, e: Event)
    requires After(j, s, [e]).Some?
    ensures Enabled(j, s, e) && After(j, s, [e]) == Some(Apply(j, s, e))
  {
    assert [e][1..] == [];
    assert After(j, Apply(j, s, e), []) == Some(Apply(j, s, e));
  }

  // Another request of the same user inserted the solve between the check and the insert of q.
  ghost predicate Overtaken(run: seq<Event>, s: State, q: nat) {
    exists i: nat, m: nat, k: nat :: OvertakenAt(run, s, q, i, m, k)
  }

  predicate OvertakenAt(run: seq<Event>, s: State, q: nat, i: nat, m: nat, k: nat) {
    i < m < k < |run| && run[i] == Check(q) && run[k] == Award(q) && Overtakes(s, run[m], q)
  }

  lemma Slices(run: seq<Event>, i: nat, k: nat)
    requires i < k < |run|
    ensures run == run[..i] + [run[i]] + run[i + 1..k] + [run[k]] + run[k + 1..]
  {
  }

  lemma LostOvertaken(j: Judge, run: seq<Event>, q: nat)
    requires After(j, EMPTY, run).Some? && q < |After(j, EMPTY, run).value.requests|
    requires After(j, EMPTY, run).value.requests[q].Lost()
    ensures Overtaken(run, After(j, EMPTY, run).value, q)
  {
    var s := After(j, EMPTY, run).value;
    var i, k := FindWindow(j, run, q);
    var b := run[i + 1..k];
    Slices(run, i, k);
    WrongExactly(j, run[..i], b, run[k + 1..], q);
    var e :| e in b && Overtakes(s, e, q);
    var n :| 0 <= n < |b| && b[n] == e;
    assert OvertakenAt(run, s, q, i, i + 1 + n, k);
  }

  lemma OvertakenLost(j: Judge, run: seq<Event>, q: nat, i: nat, m: nat, k: nat)
    requires After(j, EMPTY, run).Some? && OvertakenAt(run, After(j, EMPTY, run).value, q, i, m, k)
    ensures After(j, EMPTY, run).value.requests[q].Lost()
  {
    Slices(run, i, k);
    assert run[m] == run[i + 1..k][m - i - 1];
    WrongExactly(j, run[..i], run[i + 1..k], run[k + 1..], q);
  }

  // The wrong answers of a run are those of the requests overtaken.
  lemma OvertakenExact(j: Judge, run: seq<Event>, q: nat)
    requires After(j, EMPTY, run).Some? && q < |After(j, EMPTY, run).value.requests|
    ensures
      var s := After(j, EMPTY, run).value;
      s.requests[q].Lost() <==> Overtaken(run, s, q)
  {
    var s := After(j, EMPTY, run).value;
    if s.requests[q].Lost() {
      LostOvertaken(j, run, q);
    }
    if i: nat, m: nat, k: nat :| OvertakenAt(run, s, q, i, m, k) {
      OvertakenLost(j, run, q, i, m, k);
    }
  }

  lemma FindWindow(j: Judge, run: seq<Event>, q: nat) returns (i: nat, k: nat)
    requires After(j, EMPTY, run).Some? && q < |After(j, EMPTY, run).value.requests|
    requires After(j, EMPTY, run).value.requests[q].Credited()
    ensures i < k < |run| && run[i] == Check(q) && run[k] == Award(q)
  {
    k := FindAward(j, run, q);
    assert run == run[..k] + run[k..];
    var mid := Reach(j, EMPTY, run[..k], run[k..]);
    assert run[k..][0] == Award(q);
    i := FindCheck(j, run[..k], q);
  }

  // A user was told as many points as the scoreboard shows exactly when none of that user's
  // requests was overtaken between its check and its insert.
  lemma ReportsExact(j: Judge, run: seq<Event>, user: int)
    requires After(j, EMPTY, run).Some? && PositivePoints(After(j, EMPTY, run).value)
    ensures
      var s := After(j, EMPTY, run).value;
      Reported(s.requests, user, false) + Reported(s.requests, user, true) == Score(s.solves, user) <==>
      !(exists q: nat :: q < |s.requests| && s.requests[q].user == user && Overtaken(run, s, q))
  {
    var s := After(j, EMPTY, run).value;
    InvRun(j, EMPTY, run);
    NothingLostExact(s, user);
    forall q: nat | q < |s.requests| ensures s.requests[q].Lost() <==> Overtaken(run, s, q) {
      OvertakenExact(j, run, q);
    }
    assert forall r | r in s.requests :: exists q: nat :: q < |s.requests| && s.requests[q] == r;
    assert forall q: nat | q < |s.requests| :: s.requests[q] in s.requests;
  }

  // ---- One request at a time ------------------------------------------------------------------

  // Requests start only when the user has none open for the same challenge.
  predicate OneAtATime(j: Judge, s: State, run: seq<Event>)
    requires After(j, s, run).Some?
    decreases |run|
  {
    run == [] ||
    ((run[0].Begin? ==> Quiet(s, run[0].puzzle.id, run[0].user)) && OneAtATime(j, Apply(j, s, run[0]), run[1..]))
  }

  // The user has no open request for the challenge.
  predicate Quiet(s: State, challenge: nat, user: int) {
    forall r | r in s.requests && r.For(challenge, user) :: !r.Open()
  }

  ghost predicate Orderly(s: State) {
    && (forall q, p | 0 <= q < |s.requests| && 0 <= p < |s.requests| && BothOpen(s.requests[q], s.requests[p]) :: q == p)
    && (forall r | r in s.requests && r.phase.Checked? :: !s.Solved(r.puzzle.id, r.user))
    && (forall r | r in s.requests :: !r.Lost())
  }

  // Both open, of one user for one challenge.
  predicate BothOpen(a: Request, b: Request) {
    a.Open() && b.Open() && a.For(b.puzzle.id, b.user)
  }

  lemma OrderlyStep(j: Judge, s: State, e: Event)
    requires Orderly(s) && Enabled(j, s, e)
    requires e.Begin? ==> Quiet(s, e.puzzle.id, e.user)
    ensures Orderly(Apply(j, s, e))
  {
    var t := Apply(j, s, e);
    forall r | r in t.requests ensures !r.Lost() && (r.phase.Checked? ==> !t.Solved(r.puzzle.id, r.user)) {
      var q :| 0 <= q < |t.requests| && t.requests[q] == r;
      AwardSolves(j, s, e, r.puzzle.id, r.user);
      if e.Award? {
        assert s.requests[e.q] in s.requests && s.requests[e.q].Open();
      }
      if q < |s.requests| {
        assert s.requests[q] in s.requests;
      }
    }
    forall q, p | 0 <= q < |t.requests| && 0 <= p < |t.requests| && BothOpen(t.requests[q], t.requests[p])
      ensures q == p
    {
      if q < |s.requests| && p < |s.requests| {
        assert BothOpen(s.requests[q], s.requests[p]);
      }
    }
  }

  lemma {:induction false} OrderlyRun(j: Judge, s: State, run: seq<Event>)
    requires Orderly(s) && After(j, s, run).Some? && OneAtATime(j, s, run)
    ensures Orderly(After(j, s, run).value)
    decreases |run|
  {
    if run != [] {
      OrderlyStep(j, s, run[0]);
      OrderlyRun(j, Apply(j, s, run[0]), run[1..]);
    }
  }

  lemma {:induction false} NothingLost(requests: seq<Request>, user: int)
    requires forall r | r in requests :: !r.Lost()
    ensures Reported(requests, user, true) == 0
  {
    if requests != [] {
      var most := requests[..|requests| - 1];
      assert forall r | r in most :: r in requests;
      assert requests[|requests| - 1] in requests;
      NothingLost(most, user);
    }
  }

  // If no user overlaps requests for one challenge, the points reported to each user are exactly
  // those of the scoreboard.
  lemma SequentialReports(j: Judge, run: seq<Event>, user: int)
    requires After(j, EMPTY, run).Some? && OneAtATime(j, EMPTY, run)
    ensures
      var s := After(j, EMPTY, run).value;
      Reported(s.requests, user, false) + Reported(s.requests, user, true) == Score(s.solves, user)
  {
    InvRun(j, EMPTY, run);
    OrderlyRun(j, EMPTY, run);
    NothingLost(After(j, EMPTY, run).value.requests, user);
  }

  lemma {:induction false} AfterConcat(j: Judge, s: State, a: seq<Event>, b: seq<Event>)
    requires After(j, s, a).Some?
    ensures After(j, s, a + b) == After(j, After(j, s, a).value, b)
    decreases |a|
  {
    if a == [] {
      assert a + b == b;
    } else {
      assert (a + b)[1..] == a[1..] + b;
      AfterConcat(j, Apply(j, s, a[0]), a[1..], b);
    }
  }

  lemma AfterOne(j: Judge, s: State, e: Event, t: State)
    requires Enabled(j, s, e) && Apply(j, s, e) == t
    ensures After(j, s, [e]) == Some(t)
  {
    assert [e][1..] == [];
    assert After(j, t, []) == Some(t);
  }

  lemma AfterTwo(j: Judge, s: State, d: Event, e: Event, t: State, u: State)
    requires Enabled(j, s, d) && Apply(j, s, d) == t && Enabled(j, t, e) && Apply(j, t, e) == u
    ensures After(j, s, [d, e]) == Some(u)
  {
    AfterOne(j, s, d, t);
    AfterOne(j, t, e, u);
    AfterConcat(j, s, [d], [e]);
    assert [d] + [e] == [d, e];
  }

  function Twins(p: Puzzle, text: string, user: int, first: Phase, second: Phase): seq<Request> {
    [Request(user, p, text, first), Request(user, p, text, second)]
  }

  function Entries(p: Puzzle, text: string, user: int): seq<Submission> {
    [Submission(p.id, user, text, true, 0), Submission(p.id, user, text, true, 1)]
  }

  // Both requests recorded their flags.
  lemma RaceOpens(j: Judge, p: Puzzle, text: string, user: int)
    requires Evaluate(j, p, text) == Some(true)
    ensures
      var b := Begin(user, p, text, true);
      After(j, EMPTY, [b, b] + [Record(0), Record(1)]) ==
      Some(State(Entries(p, text, user), [], Twins(p, text, user, Recorded(0), Recorded(1)), 0))
  {
    var b := Begin(user, p, text, true);
    var s1 := State([], [], [Request(user, p, text, Judged(true))], 0);
    var s2 := State([], [], Twins(p, text, user, Judged(true), Judged(true)), 0);
    var s3 := State([Submission(p.id, user, text, true, 0)], [], Twins(p, text, user, Recorded(0), Judged(true)), 0);
    var s4 := State(Entries(p, text, user), [], Twins(p, text, user, Recorded(0), Recorded(1)), 0);
    AfterTwo(j, EMPTY, b, b, s1, s2);
    AfterTwo(j, s2, Record(0), Record(1), s3, s4);
    AfterConcat(j, EMPTY, [b, b], [Record(0), Record(1)]);
  }

  // Both find the challenge unsolved, and both are credited.
  lemma RaceCloses(j: Judge, p: Puzzle, text: string, user: int)
    ensures
      After(j, State(Entries(p, text, user), [], Twins(p, text, user, Recorded(0), Recorded(1)), 0),
            [Check(0), Check(1)] + [Award(0), Award(1)]) ==
      Some(RaceEnd(p, text, user))
  {
    var rows := Entries(p, text, user);
    var s4 := State(rows, [], Twins(p, text, user, Recorded(0), Recorded(1)), 0);
    var s5 := State(rows, [], Twins(p, text, user, Checked(0), Recorded(1)), 0);
    var s6 := State(rows, [], Twins(p, text, user, Checked(0), Checked(1)), 0);
    var won := Done(Accepted(0, p.points, Some(0)));
    var s7 := State(rows, [Solve(p.id, user, 0, p.points, 0)], Twins(p, text, user, won, Checked(1)), 0);
    AfterTwo(j, s4, Check(0), Check(1), s5, s6);
    assert s7.solves[0].challenge == p.id && s7.solves[0].user == user;
    AfterTwo(j, s6, Award(0), Award(1), s7, RaceEnd(p, text, user));
    AfterConcat(j, s4, [Check(0), Check(1)], [Award(0), Award(1)]);
  }

  function RaceEnd(p: Puzzle, text: string, user: int): State {
    State(Entries(p, text, user), [Solve(p.id, user, 0, p.points, 0)],
          Twins(p, text, user, Done(Accepted(0, p.points, Some(0))), Done(Accepted(1, p.points, None))), 0)
  }

  // Two requests that overlap can both be credited, for any challenge and any flag it accepts: the
  // points are reported twice and scored once.
  lemma Race(j: Judge, p: Puzzle, text: string, user: int)
    requires Evaluate(j, p, text) == Some(true)
    ensures exists run :: (
      && After(j, EMPTY, run).Some?
      && var s := After(j, EMPTY, run).value;
      && Score(s.solves, user) == p.points
      && Reported(s.requests, user, false) + Reported(s.requests, user, true) == 2 * p.points)
  {
    var b := Begin(user, p, text, true);
    var first, second := [b, b] + [Record(0), Record(1)], [Check(0), Check(1)] + [Award(0), Award(1)];
    RaceOpens(j, p, text, user);
    RaceCloses(j, p, text, user);
    AfterConcat(j, EMPTY, first, second);
    assert After(j, EMPTY, first + second) == Some(RaceEnd(p, text, user));
    RaceSums(p, text, user);
  }

  lemma RaceSums(p: Puzzle, text: string, user: int)
    ensures
      var s := RaceEnd(p, text, user);
      && Score(s.solves, user) == p.points
      && Reported(s.requests, user, false) + Reported(s.requests, user, true) == 2 * p.points
  {
    var s := RaceEnd(p, text, user);
    assert s.solves[..0] == [];
    ReportedTwo(s.requests, user, false);
    ReportedTwo(s.requests, user, true);
  }

  lemma ReportedTwo(requests: seq<Request>, user: int, lost: bool)
    requires |requests| == 2
    ensures Reported(requests, user, lost) == Points(requests[0], user, lost) + Points(requests[1], user, lost)
  {
    var one := requests[..1];
    assert one[0] == requests[0] && one[..0] == [];
    assert Reported(one[..0], user, lost) == 0;
  }
}

// The request handler, statement by statement, with other requests running in between.
module GameService {
  import opened Options
  import opened Submissions

  datatype Failure = ChallengeNotFound | FlagStrategyInvalid | StatementFailed

  // Refused: nothing was recorded.
  datatype Answer = Answered(reply: Reply) | Refused(failure: Failure)

  // What a request knows of the past when others have gone on: rows stay, its own phase stays.
  ghost predicate Onwards(s: State, t: State, q: int) {
    && s.submissions <= t.submissions && s.solves <= t.solves && s.now <= t.now
    && |s.requests| <= |t.requests|
    && (0 <= q < |s.requests| ==> t.requests[q] == s.requests[q])
  }

  // The challenges as this handler reads them; requests of others may know others.
  class Store {
    const judge: Judge
    const catalog: map<string, Puzzle>
    var st: State
    ghost var run: seq<Event>   // what happened so far, in all requests
    ghost var faults: nat       // statements that failed

    ghost predicate Valid()
      reads this
    {
      After(judge, EMPTY, run) == Some(st)
    }

    lemma Sound()
      requires Valid()
      ensures Inv(st)
    {
      InvRun(judge, EMPTY, run);
    }

    // At any time the points reported to a user are those of the scoreboard exactly if none of the
    // user's requests was overtaken so far.
    lemma ReportsSoFar(user: int)
      requires Valid() && PositivePoints(st)
      ensures
        Reported(st.requests, user, false) + Reported(st.requests, user, true) == Score(st.solves, user) <==>
        !(exists q: nat :: q < |st.requests| && st.requests[q].user == user && Overtaken(run, st, q))
    {
      ReportsExact(judge, run, user);
    }

    // A request answered with a solve was answered wrongly exactly if it was overtaken.
    lemma AnswerWrong(q: nat)
      requires Valid() && q < |st.requests|
      ensures st.requests[q].Lost() <==> Overtaken(run, st, q)
    {
      OvertakenExact(judge, run, q);
    }

    constructor (judge: Judge, catalog: map<string, Puzzle>)
      ensures Valid() && st == EMPTY && this.judge == judge && this.catalog == catalog && faults == 0 && run == []
    {
      this.judge, this.catalog, st, run, faults := judge, catalog, EMPTY, [], 0;
    }

    method Act(e: Event)
      requires Valid() && Enabled(judge, st, e)
      modifies this
      ensures Valid() && st == Apply(judge, old(st), e) && faults == old(faults) && run == old(run) + [e]
    {
      AfterOne(judge, st, e, Apply(judge, st, e));
      AfterConcat(judge, EMPTY, run, [e]);
      run := run + [e];
      st := Apply(judge, st, e);
    }

    // Any number of steps of other requests, none of request q.
    method Others(q: int)
      requires Valid()
      modifies this
      ensures Valid() && Onwards(old(st), st, q) && faults == old(faults)
    {
      var steps: nat := *;
      while steps > 0
        invariant Valid() && Onwards(old(st), st, q) && faults == old(faults)
      {
        steps := steps - 1;
        var e: Event := *;
        if Enabled(judge, st, e) && !((e.Record? || e.Check? || e.Award? || e.Fail?) && e.q == q) {
          SolvesGrow(judge, st, e);
          Act(e);
        }
      }
    }

    // GetChallenge
    method GetChallenge(ref: string) returns (r: Option<Puzzle>, failed: bool)
      requires Valid()
      modifies this
      ensures Valid() && Onwards(old(st), st, -1)
      ensures !failed ==> r == if ref in catalog then Some(catalog[ref]) else None
      ensures faults == old(faults) + (if failed then 1 else 0)
    {
      Others(-1);
      failed := *;
      Note(failed);
      r := if ref in catalog then Some(catalog[ref]) else None;
    }

    ghost method Note(failed: bool)
      modifies this`faults
      ensures faults == old(faults) + (if failed then 1 else 0)
    {
      faults := if failed then faults + 1 else faults;
    }

    // Request me came to this phase; rows only grew.
    ghost predicate Came(s: State, me: nat, phase: Phase)
      reads this
      requires me < |s.requests|
    {
      Valid() && Onwards(s, st, -1) && me < |st.requests| && st.requests[me] == s.requests[me].(phase := phase)
    }

    method CreateSubmission(me: nat) returns (id: nat, failed: bool)
      requires Valid() && me < |st.requests| && st.requests[me].phase.Judged?
      modifies this
      ensures failed ==> Came(old(st), me, Done(Failed))
      ensures !failed ==>
        var r := old(st.requests[me]);
        && Came(old(st), me, if r.phase.correct then Recorded(id) else Done(Incorrect(id)))
        && |old(st.submissions)| <= id < |st.submissions|
        && st.submissions[id] == Submission(r.puzzle.id, r.user, r.text, r.phase.correct, me)
      ensures faults == old(faults) + (if failed then 1 else 0)
    {
      Others(me);
      failed, id := *, |st.submissions|;
      Note(failed);
      Act(if failed then Fail(me) else Record(me));
    }

    method HasSolved(me: nat) returns (solved: bool, failed: bool)
      requires Valid() && me < |st.requests| && st.requests[me].phase.Recorded?
      modifies this
      ensures
        var r := old(st.requests[me]);
        && Came(old(st), me, if failed then Done(Failed)
                             else if solved then Done(AlreadySolved(r.phase.submission))
                             else Checked(r.phase.submission))
        && (!failed && solved ==> st.Solved(r.puzzle.id, r.user))
      ensures faults == old(faults) + (if failed then 1 else 0)
    {
      Others(me);
      var r := st.requests[me];
      failed, solved := *, st.Solved(r.puzzle.id, r.user);
      Note(failed);
      Act(if failed then Fail(me) else Check(me));
    }

    // The insert that the unique index may turn into nothing: in state mid there was a solve already
    // exactly if no time is returned.
    method CreateSolve(me: nat) returns (at: Option<int>, failed: bool, ghost mid: State)
      requires Valid() && me < |st.requests| && st.requests[me].phase.Checked?
      modifies this
      ensures
        var r := old(st.requests[me]);
        && Came(old(st), me, Done(if failed then Failed else Accepted(r.phase.submission, r.puzzle.points, at)))
        && (!failed ==> st.Solved(r.puzzle.id, r.user) && (at.None? <==> mid.Solved(r.puzzle.id, r.user)))
      ensures Onwards(old(st), mid, me) && (!failed ==> Enabled(judge, mid, Award(me)) && st == Apply(judge, mid, Award(me)))
      ensures faults == old(faults) + (if failed then 1 else 0)
    {
      Others(me);
      mid := st;
      var r := st.requests[me];
      failed := *;
      at := if st.Solved(r.puzzle.id, r.user) then None else Some(st.now);
      Note(failed);
      Act(if failed then Fail(me) else Award(me));
      Sound();
      assert st.requests[me] in st.requests;
    }

    // SubmitFlag. The request appears in the history as q, and what is answered is what its steps
    // came to.
    method SubmitFlag(user: int, ref: string, submitted: string) returns (r: Answer, ghost q: nat)
      requires Valid()
      modifies this
      ensures Valid() && Onwards(old(st), st, -1)
      ensures r.Answered? ==> Answers(old(st), q, user, ref, submitted, r.reply)
      ensures r == Refused(ChallengeNotFound) ==> ref !in catalog
      ensures r == Refused(FlagStrategyInvalid) ==> ref in catalog && Unjudgeable(judge, catalog[ref])
      ensures r.Answered? ==> !Unjudgeable(judge, catalog[ref])
      ensures r.Answered? && !r.reply.Failed? ==> (r.reply.Incorrect? <==> !Fits(judge, catalog[ref], submitted))
      ensures faults == old(faults) + (if r in {Answered(Failed), Refused(StatementFailed)} then 1 else 0)
    {
      q := 0;
      var challenge, failed := GetChallenge(ref);
      if failed { return Refused(StatementFailed), q; }
      if challenge.None? { return Refused(ChallengeNotFound), q; }
      var correct := Evaluate(judge, challenge.value, submitted);
      EvaluateExact(judge, challenge.value, submitted);
      if correct.None? { return Refused(FlagStrategyInvalid), q; }
      q := |st.requests|;
      var me := |st.requests|;
      Act(Begin(user, challenge.value, submitted, correct.value));
      var reply := Conclude(me, correct.value);
      return Answered(reply), q;
    }

    // The statements of a request that was judged.
    method Conclude(me: nat, correct: bool) returns (reply: Reply)
      requires Valid() && me < |st.requests| && st.requests[me].phase == Judged(correct)
      modifies this
      ensures Came(old(st), me, Done(reply))
      ensures reply.Failed? || Concluded(old(st), me, correct, reply)
      ensures faults == old(faults) + (if reply.Failed? then 1 else 0)
    {
      var id, failed := CreateSubmission(me);
      if failed { return Failed; }
      if !correct { return Incorrect(id); }
      var solved;
      solved, failed := HasSolved(me);
      if failed { return Failed; }
      if solved { return AlreadySolved(id); }
      var points := st.requests[me].puzzle.points;
      var at;
      ghost var mid;
      at, failed, mid := CreateSolve(me);
      if failed { return Failed; }
      return Accepted(id, points, at);
    }

    ghost predicate Concluded(s: State, me: nat, correct: bool, reply: Reply)
      requires me < |s.requests| && !reply.Failed?
      reads this
    {
      var r := s.requests[me];
      && |s.submissions| <= reply.submission < |st.submissions|
      && st.submissions[reply.submission] == Submission(r.puzzle.id, r.user, r.text, correct, me)
      && (reply.Incorrect? <==> !correct)
      && (correct ==> st.Solved(r.puzzle.id, r.user))
      && (reply.Accepted? ==> reply.points == r.puzzle.points)
    }

    // Request q, new since s, ended with this reply; its submission was stored as judged, and a flag
    // found correct means a solved challenge.
    ghost predicate Answers(s: State, q: nat, user: int, ref: string, submitted: string, reply: Reply)
      reads this
    {
      && |s.requests| <= q < |st.requests|
      && ref in catalog
      && var p := catalog[ref];
      && st.requests[q] == Request(user, p, submitted, Done(reply))
      && (reply.Failed? || Stored(s, q, user, p, submitted, reply))
    }

    ghost predicate Stored(s: State, q: nat, user: int, p: Puzzle, submitted: string, reply: Reply)
      requires !reply.Failed?
      reads this
    {
      && |s.submissions| <= reply.submission < |st.submissions|
      && st.submissions[reply.submission] == Submission(p.id, user, submitted, !reply.Incorrect?, q)
      && Evaluate(judge, p, submitted) == Some(!reply.Incorrect?)
      && (!reply.Incorrect? ==> st.Solved(p.id, user))
      && (reply.Accepted? ==> reply.points == p.points)
    }
  }
}
