// What the importer does not see: blank lines, comments, the order of scalars in a section and the
// order of sections.

module Folding {
  import opened Options

  // A step that may refuse, over a sequence.
  function Fold<S, A>(f: (S, A) -> Option<S>, s: S, xs: seq<A>): Option<S> {
    if xs == [] then Some(s)
    else match f(s, xs[0]) case Some(t) => Fold(f, t, xs[1..]) case None => None
  }

  function Both<S, A>(f: (S, A) -> Option<S>, s: S, x: A, y: A): Option<S> {
    match f(s, x) case Some(t) => f(t, y) case None => None
  }

  // From s, y may be taken before x if x and y may be taken in this order, to the same end.
  ghost predicate Exchanges<S(!new), A(!new)>(f: (S, A) -> Option<S>, s: S, x: A, y: A) {
    Both(f, s, x, y).Some? ==> Both(f, s, y, x) == Both(f, s, x, y)
  }

  ghost predicate Commute<S(!new), A(!new)>(f: (S, A) -> Option<S>, xs: seq<A>) {
    forall s, x, y | x in xs && y in xs && x != y :: Exchanges(f, s, x, y)
  }

  lemma CommuteSome<S(!new), A(!new)>(f: (S, A) -> Option<S>, xs: seq<A>, ys: seq<A>)
    requires Commute(f, xs) && forall y | y in ys :: y in xs
    ensures Commute(f, ys)
  {
  }

  lemma Swap<S(!new), A(!new)>(f: (S, A) -> Option<S>, s: S, y: A, x: A, others: seq<A>)
    requires Exchanges(f, s, y, x)
    requires Fold(f, s, [y] + ([x] + others)).Some?
    ensures Fold(f, s, [x] + ([y] + others)) == Fold(f, s, [y] + ([x] + others))
  {
    FoldCons(f, s, y, [x] + others);
    FoldCons(f, f(s, y).value, x, others);
    FoldCons(f, s, x, [y] + others);
    FoldCons(f, f(s, x).value, y, others);
  }

  // Any element may be taken first.
  lemma {:induction false} TakeFirst<S(!new), A(!new)>(f: (S, A) -> Option<S>, s: S, xs: seq<A>, i: nat)
    requires i < |xs| && Commute(f, xs) && Fold(f, s, xs).Some?
    ensures Fold(f, s, [xs[i]] + (xs[..i] + xs[i + 1..])) == Fold(f, s, xs)
    decreases i
  {
    if i == 0 {
      assert [xs[0]] + (xs[..0] + xs[1..]) == xs;
    } else {
      var y, rest := xs[0], xs[1..];
      assert xs == [y] + rest;
      FoldCons(f, s, y, rest);
      CommuteSome(f, xs, rest);
      TakeFirst(f, f(s, y).value, rest, i - 1);
      MoveForward(f, s, y, rest, i - 1);
      assert xs[..i] + xs[i + 1..] == [y] + (rest[..i - 1] + rest[i..]);
    }
  }

  lemma MoveForward<S(!new), A(!new)>(f: (S, A) -> Option<S>, s: S, y: A, rest: seq<A>, i: nat)
    requires i < |rest| && f(s, y).Some? && Commute(f, [y] + rest)
    requires
      var others := rest[..i] + rest[i + 1..];
      Fold(f, f(s, y).value, [rest[i]] + others) == Fold(f, f(s, y).value, rest) && Fold(f, f(s, y).value, rest).Some?
    ensures Fold(f, s, [rest[i]] + ([y] + (rest[..i] + rest[i + 1..]))) == Fold(f, f(s, y).value, rest)
  {
    var x, others := rest[i], rest[..i] + rest[i + 1..];
    FoldCons(f, s, y, [x] + others);
    assert x in [y] + rest && y in [y] + rest;
    if x != y { assert Exchanges(f, s, y, x); }
    Swap(f, s, y, x, others);
  }

  lemma FoldCons<S(!new), A(!new)>(f: (S, A) -> Option<S>, s: S, x: A, rest: seq<A>)
    ensures Fold(f, s, [x] + rest) == match f(s, x) case Some(t) => Fold(f, t, rest) case None => None
  {
    assert ([x] + rest)[1..] == rest;
  }

  // Steps that commute may be taken in any order.
  lemma {:induction false} AnyOrder<S(!new), A(!new)>(f: (S, A) -> Option<S>, s: S, xs: seq<A>, ys: seq<A>)
    requires multiset(xs) == multiset(ys) && Commute(f, xs) && Fold(f, s, xs).Some?
    ensures Fold(f, s, ys) == Fold(f, s, xs)
    decreases |xs|
  {
    assert |xs| == |multiset(xs)| == |multiset(ys)| == |ys|;
    if xs != [] {
      assert ys[0] in multiset(ys);
      var i :| 0 <= i < |xs| && xs[i] == ys[0];
      TakeFirst(f, s, xs, i);
      var rest := xs[..i] + xs[i + 1..];
      SameRest(xs, i, ys);
      FoldCons(f, s, xs[i], rest);
      CommuteSome(f, xs, rest);
      AnyOrder(f, f(s, xs[i]).value, rest, ys[1..]);
    }
  }

  lemma SameRest<A>(xs: seq<A>, i: nat, ys: seq<A>)
    requires i < |xs| && ys != [] && ys[0] == xs[i] && multiset(xs) == multiset(ys)
    ensures multiset(xs[..i] + xs[i + 1..]) == multiset(ys[1..])
  {
    assert xs == xs[..i] + ([xs[i]] + xs[i + 1..]);
    assert ys == [ys[0]] + ys[1..];
    assert multiset(xs) == multiset(xs[..i]) + (multiset{xs[i]} + multiset(xs[i + 1..]));
    assert multiset(ys) == multiset{ys[0]} + multiset(ys[1..]);
    var one, rest := multiset{xs[i]}, multiset(xs[..i] + xs[i + 1..]);
    assert rest == multiset(xs[..i]) + multiset(xs[i + 1..]);
    assert multiset(xs) == one + rest;
    assert rest == (one + rest) - one;
    assert multiset(ys[1..]) == (one + multiset(ys[1..])) - one;
  }

  lemma AnyOrderAgrees<S(!new), A(!new)>(f: (S, A) -> Option<S>, s: S, xs: seq<A>, ys: seq<A>)
    requires multiset(xs) == multiset(ys) && Commute(f, xs)
    ensures Fold(f, s, xs) == Fold(f, s, ys)
  {
    assert forall y | y in ys :: y in multiset(ys);
    CommuteSome(f, xs, ys);
    if Fold(f, s, xs).Some? {
      AnyOrder(f, s, xs, ys);
    } else if Fold(f, s, ys).Some? {
      AnyOrder(f, s, ys, xs);
    }
  }
}

module SpecOrder {
  import opened Options
  import opened SpecText
  import opened Spec
  import opened Folding

  // Two texts are accepted alike, or both refused.
  ghost predicate Alike<T(!new)>(a: Result<T>, b: Result<T>) {
    a == b || (a.Err? && b.Err?)
  }

  // What follows a part of the lines depends on what reading that part gives.
  lemma PartReplaced(a: seq<string>, x: seq<string>, y: seq<string>, b: seq<string>, tooLong: bool, v: string -> bool)
    requires forall st :: Alike(ReadLines(st, x), ReadLines(st, y))
    ensures Alike(Parse(Scan(a + x + b, tooLong), v), Parse(Scan(a + y + b, tooLong), v))
  {
    ReadConcat(START, a + x, b);
    ReadConcat(START, a + y, b);
    ReadConcat(START, a, x);
    ReadConcat(START, a, y);
    match ReadLines(START, a) {
      case Ok(st) => assert Alike(ReadLines(st, x), ReadLines(st, y));
      case Err(_) =>
    }
  }

  // ---- Blank lines and comments ---------------------------------------------------------------

  lemma CommentOnly(spaces: string, comment: string)
    requires forall i | 0 <= i < |spaces| :: IsSpace(spaces[i])
    ensures Payload(spaces) == "" && Payload(spaces + "#" + comment) == ""
  {
    NoComment(spaces);
    StripAll(spaces, IsSpace);
    AppendedComment(spaces, comment);
  }

  lemma {:induction false} NoComment(s: string)
    requires forall i | 0 <= i < |s| :: IsSpace(s[i])
    ensures WithoutComment(s) == s && QuotesAfter(UNQUOTED, s) == UNQUOTED
  {
    if s != "" { NoComment(s[1..]); }
  }

  // Lines that hold only space and comments may be put anywhere.
  lemma BlankLinesIgnored(a: seq<string>, line: string, b: seq<string>, tooLong: bool, v: string -> bool)
    requires Payload(line) == ""
    ensures Parse(Scan(a + [line] + b, tooLong), v) == Parse(Scan(a + b, tooLong), v)
  {
    assert a + [line] + b == a + ([line] + b);
    ReadConcat(START, a, [line] + b);
    ReadConcat(START, a, b);
    match ReadLines(START, a) {
      case Ok(st) =>
        ReadConcat(st, [line], b);
        ReadOne(st, line);
      case Err(_) =>
    }
  }

  lemma ReadOne(st: Reading, line: string)
    ensures ReadLines(st, [line]) == StepLine(st, line)
  {
    match StepLine(st, line) {
      case Ok(next) => assert [line][1..] == [] && ReadLines(next, []) == Ok(next);
      case Err(_) =>
    }
  }

  // A comment may follow any line whose quotes are closed.
  lemma CommentStep(st: Reading, line: string, comment: string)
    requires Closed(line)
    ensures StepLine(st, line + "#" + comment) == StepLine(st, line)
  {
    AppendedComment(line, comment);
    if Payload(line) != "" {
      SameIndent(line, "#" + comment);
      assert line + "#" + comment == line + ("#" + comment);
    }
  }

  lemma SameIndent(line: string, more: string)
    requires Payload(line) != ""
    ensures Indent(line + more) == Indent(line)
  {
    if StripLeft(line, IsBlank) == "" {
      StripLeftShape(line, IsBlank);
      assert forall i | 0 <= i < |line| :: IsSpace(line[i]);
      NoComment(line);
      StripAll(line, IsSpace);
    }
    StripMore(line, more);
  }

  lemma {:induction false} StripMore(line: string, more: string)
    requires StripLeft(line, IsBlank) != ""
    ensures StripLeft(line + more, IsBlank) == StripLeft(line, IsBlank) + more
  {
    if line[0] == ' ' {
      assert (line + more)[1..] == line[1..] + more;
      StripMore(line[1..], more);
    }
  }

  lemma CommentsIgnored(a: seq<string>, line: string, comment: string, b: seq<string>, tooLong: bool, v: string -> bool)
    requires Closed(line)
    ensures Parse(Scan(a + [line + "#" + comment] + b, tooLong), v) == Parse(Scan(a + [line] + b, tooLong), v)
  {
    ReadConcat(START, a + [line + "#" + comment], b);
    ReadConcat(START, a + [line], b);
    ReadConcat(START, a, [line + "#" + comment]);
    ReadConcat(START, a, [line]);
    match ReadLines(START, a) {
      case Ok(st) =>
        CommentStep(st, line, comment);
        ReadOne(st, line);
        ReadOne(st, line + "#" + comment);
      case Err(_) =>
    }
  }

  // ---- Scalars of one section -----------------------------------------------------------------

  // Every field of the section, after one scalar was assigned.
  lemma MetaFields(m: Meta, key: string, v: string)
    ensures
      match AssignMeta(m, key, v)
      case Err(_) => true
      case Ok(r) =>
        && r.slug == (if key == "slug" then v else m.slug)
        && r.title == (if key == "title" then v else m.title)
        && r.category == (if key == "category" then v else m.category)
        && r.difficulty == (if key == "difficulty" then v else m.difficulty)
        && r.status == (if key == "status" then v else m.status)
        && (if key == "points" then Numeric(v) == Ok(r.points) else r.points == m.points)
        && (if key == "sort_order" then Numeric(v) == Ok(r.sortOrder) else r.sortOrder == m.sortOrder)
        && (if key == "dynamic" then Boolean(v) == Ok(r.dynamic) else r.dynamic == m.dynamic)
        && (if key == "visible" then Boolean(v) == Ok(r.visible) else r.visible == m.visible)
  {
  }

  lemma MetaAccepts(m: Meta, n: Meta, key: string, v: string)
    ensures AssignMeta(m, key, v).Ok? <==> AssignMeta(n, key, v).Ok?
  {
  }

  lemma MetaCommute(m: Meta, k1: string, v1: string, k2: string, v2: string)
    requires k1 != k2 && AssignMeta(m, k1, v1).Ok?
    requires AssignMeta(AssignMeta(m, k1, v1).value, k2, v2).Ok?
    ensures AssignMeta(m, k2, v2).Ok?
    ensures AssignMeta(AssignMeta(m, k2, v2).value, k1, v1) == AssignMeta(AssignMeta(m, k1, v1).value, k2, v2)
  {
    var m1 := AssignMeta(m, k1, v1).value;
    MetaAccepts(m, m1, k2, v2);
    var m2 := AssignMeta(m, k2, v2).value;
    MetaAccepts(m, m2, k1, v1);
    MetaFields(m, k1, v1);
    MetaFields(m, k2, v2);
    MetaFields(m1, k2, v2);
    MetaFields(m2, k1, v1);
  }

  lemma RuntimeTexts(m: Runtime, key: string, v: string)
    ensures
      match AssignRuntime(m, key, v)
      case Err(_) => true
      case Ok(r) =>
        && r.image == (if key == "image" then v else m.image)
        && r.mode == (if key == "mode" then v else m.mode)
        && r.expose == (if key == "expose" then v else m.expose)
  {
  }

  lemma RuntimeTimes(m: Runtime, key: string, v: string)
    ensures
      match AssignRuntime(m, key, v)
      case Err(_) => true
      case Ok(r) =>
        && (if key == "ttl" then Seconds(v) == Ok(r.ttl) else r.ttl == m.ttl)
        && (if key == "user_cooldown" then Seconds(v) == Ok(r.cooldown) else r.cooldown == m.cooldown)
  {
  }

  lemma RuntimeRest(m: Runtime, key: string, v: string)
    ensures
      match AssignRuntime(m, key, v)
      case Err(_) => true
      case Ok(r) => r.env == m.env && r.command == m.command && r.enabled == m.enabled
  {
  }

  lemma RuntimeNumbers(m: Runtime, key: string, v: string)
    ensures
      match AssignRuntime(m, key, v)
      case Err(_) => true
      case Ok(r) =>
        && (if key == "container_port" then Numeric(v) == Ok(r.port) else r.port == m.port)
        && (if key == "max_active_instances" then Numeric(v) == Ok(r.maxActive) else r.maxActive == m.maxActive)
  {
  }

  lemma RuntimeSizes(m: Runtime, key: string, v: string)
    ensures
      match AssignRuntime(m, key, v)
      case Err(_) => true
      case Ok(r) =>
        && (if key == "memory_limit_mb" then Numeric(v) == Ok(r.memory) else r.memory == m.memory)
        && (if key == "cpu_limit_millicores" then Numeric(v) == Ok(r.cpu) else r.cpu == m.cpu)
  {
  }

  lemma RuntimeRenewals(m: Runtime, key: string, v: string)
    ensures
      match AssignRuntime(m, key, v)
      case Err(_) => true
      case Ok(r) =>
        if key == "max_renew_count" then Numeric(v) == Ok(r.maxRenew)
        else if key == "renew_allowed" then
          Boolean(v).Ok? && r.maxRenew == AllowRenewals(m, Boolean(v).value).maxRenew
        else r.maxRenew == m.maxRenew
  {
  }

  lemma RuntimeAccepts(m: Runtime, n: Runtime, key: string, v: string)
    ensures AssignRuntime(m, key, v).Ok? <==> AssignRuntime(n, key, v).Ok?
  {
  }

  // Both spellings of the renewal limit are given, and the count says otherwise than the switch.
  predicate Conflict(k1: string, v1: string, k2: string, v2: string) {
    OneConflict(k1, v1, k2, v2) || OneConflict(k2, v2, k1, v1)
  }

  predicate OneConflict(k1: string, v1: string, k2: string, v2: string) {
    && k1 == "max_renew_count" && k2 == "renew_allowed" && Atoi(v1).Some? && ParseBool(v2).Some?
    && (ParseBool(v2).value <==> Atoi(v1).value == 0)
  }

  lemma RuntimeCommute(m: Runtime, k1: string, v1: string, k2: string, v2: string)
    requires k1 != k2 && AssignRuntime(m, k1, v1).Ok?
    requires AssignRuntime(AssignRuntime(m, k1, v1).value, k2, v2).Ok?
    ensures AssignRuntime(m, k2, v2).Ok?
    ensures AssignRuntime(AssignRuntime(m, k2, v2).value, k1, v1).Ok?
    ensures
      var r := AssignRuntime(AssignRuntime(m, k1, v1).value, k2, v2);
      var s := AssignRuntime(AssignRuntime(m, k2, v2).value, k1, v1);
      r == s <==> !Conflict(k1, v1, k2, v2)
  {
    var m1 := AssignRuntime(m, k1, v1).value;
    RuntimeAccepts(m, m1, k2, v2);
    var m2 := AssignRuntime(m, k2, v2).value;
    RuntimeAccepts(m, m2, k1, v1);
    RuntimeAgree(m, k1, v1, k2, v2);
    RenewalsAgree(m, k1, v1, k2, v2);
  }

  // Apart from the renewal limit the order never matters.
  lemma RuntimeAgree(m: Runtime, k1: string, v1: string, k2: string, v2: string)
    requires k1 != k2 && AssignRuntime(m, k1, v1).Ok? && AssignRuntime(m, k2, v2).Ok?
    requires AssignRuntime(AssignRuntime(m, k1, v1).value, k2, v2).Ok?
    requires AssignRuntime(AssignRuntime(m, k2, v2).value, k1, v1).Ok?
    ensures
      var r := AssignRuntime(AssignRuntime(m, k1, v1).value, k2, v2).value;
      var s := AssignRuntime(AssignRuntime(m, k2, v2).value, k1, v1).value;
      r == s.(maxRenew := r.maxRenew)
  {
    var m1, m2 := AssignRuntime(m, k1, v1).value, AssignRuntime(m, k2, v2).value;
    RuntimeTexts(m, k1, v1);
    RuntimeTimes(m, k1, v1);
    RuntimeRest(m, k1, v1);
    RuntimeTexts(m, k2, v2);
    RuntimeTimes(m, k2, v2);
    RuntimeRest(m, k2, v2);
    RuntimeTexts(m1, k2, v2);
    RuntimeTimes(m1, k2, v2);
    RuntimeRest(m1, k2, v2);
    RuntimeTexts(m2, k1, v1);
    RuntimeTimes(m2, k1, v1);
    RuntimeRest(m2, k1, v1);
    RuntimeNumbers(m, k1, v1);
    RuntimeSizes(m, k1, v1);
    RuntimeNumbers(m, k2, v2);
    RuntimeSizes(m, k2, v2);
    RuntimeNumbers(m1, k2, v2);
    RuntimeSizes(m1, k2, v2);
    RuntimeNumbers(m2, k1, v1);
    RuntimeSizes(m2, k1, v1);
  }

  lemma RenewalsAgree(m: Runtime, k1: string, v1: string, k2: string, v2: string)
    requires k1 != k2 && AssignRuntime(m, k1, v1).Ok? && AssignRuntime(m, k2, v2).Ok?
    requires AssignRuntime(AssignRuntime(m, k1, v1).value, k2, v2).Ok?
    requires AssignRuntime(AssignRuntime(m, k2, v2).value, k1, v1).Ok?
    ensures
      var r := AssignRuntime(AssignRuntime(m, k1, v1).value, k2, v2).value;
      var s := AssignRuntime(AssignRuntime(m, k2, v2).value, k1, v1).value;
      r.maxRenew == s.maxRenew <==> !Conflict(k1, v1, k2, v2)
  {
    var m1, m2 := AssignRuntime(m, k1, v1).value, AssignRuntime(m, k2, v2).value;
    RuntimeRenewals(m, k1, v1);
    RuntimeRenewals(m, k2, v2);
    RuntimeRenewals(m1, k2, v2);
    RuntimeRenewals(m2, k1, v1);
  }

  function Assigned(c: Challenge, section: string, k1: string, v1: string, k2: string, v2: string): Result<Challenge> {
    match Assign(c, section, k1, v1) case Ok(d) => Assign(d, section, k2, v2) case Err(e) => Err(e)
  }

  // Two scalars of a section may be exchanged, unless they are the two spellings of the renewal
  // limit in conflict; then the last one wins.
  lemma ScalarsCommute(c: Challenge, section: string, k1: string, v1: string, k2: string, v2: string)
    requires k1 != k2 && Assigned(c, section, k1, v1, k2, v2).Ok?
    ensures Assigned(c, section, k2, v2, k1, v1).Ok?
    ensures Assigned(c, section, k2, v2, k1, v1) == Assigned(c, section, k1, v1, k2, v2) <==>
            !(section == "runtime" && Conflict(k1, Scalar(v1), k2, Scalar(v2)))
  {
    if section == "meta" {
      MetaCommute(c.meta, k1, Scalar(v1), k2, Scalar(v2));
    } else if section == "runtime" {
      RuntimeCommute(RuntimeOf(c), k1, Scalar(v1), k2, Scalar(v2));
    }
  }

  // A member line that assigns a scalar, and what it assigns.
  predicate IsScalarLine(line: string) {
    var text := Payload(line);
    && text != "" && Indent(line) == 2 && !IsItem(text) && !EndsWith(text, ':')
    && SplitKeyValue(text).Split?
  }

  function KeyAt(line: string): string
    requires IsScalarLine(line)
  {
    SplitKeyValue(Payload(line)).key
  }

  function ValueAt(line: string): string
    requires IsScalarLine(line)
  {
    SplitKeyValue(Payload(line)).value
  }

  lemma ScalarStep(st: Reading, line: string)
    requires IsScalarLine(line)
    ensures StepLine(st, line) == Then(Assign(st.challenge, st.section, KeyAt(line), ValueAt(line)),
                                       d => Reading(st.section, Nothing, d))
  {
  }

  function Accepted<T>(r: Result<T>): Option<T> {
    match r case Ok(v) => Some(v) case Err(_) => None
  }

  const STEP: (Reading, string) -> Option<Reading> := (st, line) => Accepted(StepLine(st, line))

  lemma {:induction false} ReadIsFold(st: Reading, lines: seq<string>)
    ensures Accepted(ReadLines(st, lines)) == Fold(STEP, st, lines)
    decreases |lines|
  {
    if lines != [] {
      match StepLine(st, lines[0]) {
        case Ok(next) => ReadIsFold(next, lines[1..]);
        case Err(_) =>
      }
    }
  }

  // Scalar lines that may be put in any order.
  predicate Independent(lines: seq<string>) {
    && (forall l | l in lines :: IsScalarLine(l))
    && forall l, m | l in lines && m in lines && l != m ::
         && KeyAt(l) != KeyAt(m)
         && !Conflict(KeyAt(l), Scalar(ValueAt(l)), KeyAt(m), Scalar(ValueAt(m)))
  }

  lemma LinesCommute(st: Reading, l: string, m: string)
    requires IsScalarLine(l) && IsScalarLine(m) && KeyAt(l) != KeyAt(m)
    ensures !Conflict(KeyAt(l), Scalar(ValueAt(l)), KeyAt(m), Scalar(ValueAt(m))) ==> Exchanges(STEP, st, l, m)
  {
    if Conflict(KeyAt(l), Scalar(ValueAt(l)), KeyAt(m), Scalar(ValueAt(m))) || Both(STEP, st, l, m).None? {
      return;
    }
    var c, s := st.challenge, st.section;
    ScalarStep(st, l);
    ScalarStep(st, m);
    var d := Assign(c, s, KeyAt(l), ValueAt(l)).value;
    ScalarStep(Reading(s, Nothing, d), m);
    ScalarsCommute(c, s, KeyAt(l), ValueAt(l), KeyAt(m), ValueAt(m));
    var e := Assign(c, s, KeyAt(m), ValueAt(m)).value;
    ScalarStep(Reading(s, Nothing, e), l);
  }

  lemma IndependentCommute(x: seq<string>)
    requires Independent(x)
    ensures Commute(STEP, x)
  {
    forall s, l, m | l in x && m in x && l != m ensures Exchanges(STEP, s, l, m) {
      LinesCommute(s, l, m);
    }
  }

  lemma ReadAlike(st: Reading, x: seq<string>, y: seq<string>)
    requires Commute(STEP, x) && multiset(x) == multiset(y)
    ensures Alike(ReadLines(st, x), ReadLines(st, y))
  {
    AnyOrderAgrees(STEP, st, x, y);
    ReadIsFold(st, x);
    ReadIsFold(st, y);
  }

  // The scalars of a section may be written in any order.
  lemma ScalarOrder(a: seq<string>, x: seq<string>, y: seq<string>, b: seq<string>, tooLong: bool, v: string -> bool)
    requires Independent(x) && multiset(x) == multiset(y)
    ensures Alike(Parse(Scan(a + x + b, tooLong), v), Parse(Scan(a + y + b, tooLong), v))
  {
    IndependentCommute(x);
    forall st ensures Alike(ReadLines(st, x), ReadLines(st, y)) {
      ReadAlike(st, x, y);
    }
    PartReplaced(a, x, y, b, tooLong, v);
  }

  // ---- Sections -------------------------------------------------------------------------------

  // A header line and the indented lines below it.
  predicate IsSection(lines: seq<string>) {
    && lines != [] && IsHeader(lines[0])
    && forall l | l in lines[1..] :: Payload(l) == "" || Indent(l) != 0
  }

  predicate IsHeader(line: string) {
    Payload(line) != "" && Indent(line) == 0 && EndsWith(Payload(line), ':')
  }

  function NameOf(lines: seq<string>): string
    requires IsSection(lines)
  {
    var text := Payload(lines[0]);
    text[..|text| - 1]
  }

  // The first challenge with the part a section describes taken from the second.
  function Graft(section: string, c: Challenge, d: Challenge): Challenge {
    match section
    case "meta" => c.(meta := d.meta)
    case "flag" => c.(flag := d.flag)
    case "content" => c.(content := d.content)
    case "ownership" => c.(owner := d.owner)
    case "runtime" => c.(runtime := d.runtime)
    case "attachments" => c.(attachments := d.attachments)
    case _ => c
  }

  // Parts of different sections are grafted in any order.
  lemma GraftsCommute(s: string, t: string, c: Challenge, d: Challenge, e: Challenge)
    requires s != t
    ensures Graft(s, Graft(t, c, e), d) == Graft(t, Graft(s, c, d), e)
  {
  }

  lemma GraftAgain(s: string, c: Challenge, d: Challenge, e: Challenge)
    ensures Graft(s, c, c) == c && Graft(s, Graft(s, c, d), e) == Graft(s, c, e)
    ensures Graft(s, c, Graft(s, d, e)) == Graft(s, c, e)
  {
  }

  // The same reading, of a challenge that differs outside the section.
  function Moved(other: Challenge, r: Result<Reading>): Result<Reading> {
    match r
    case Ok(st) => Ok(st.(challenge := Graft(st.section, other, st.challenge)))
    case Err(e) => Err(e)
  }

  // A section is read alike whatever the rest of the challenge is, and leaves the rest alone.
  ghost predicate Local(section: string, c: Challenge, other: Challenge, here: Result<Reading>, there: Result<Reading>) {
    there == Moved(other, here) &&
    (here.Ok? ==> here.value.section == section && here.value.challenge == Graft(section, c, here.value.challenge))
  }

  lemma AssignLocal(section: string, c: Challenge, other: Challenge, key: string, value: string)
    ensures
      var here := Assign(c, section, key, value);
      && Assign(Graft(section, other, c), section, key, value) ==
         (match here case Ok(d) => Ok(Graft(section, other, d)) case Err(e) => Err(e))
      && (here.Ok? ==> here.value == Graft(section, c, here.value))
  {
  }

  lemma LastFieldLocal(st: Reading, other: Challenge, text: string)
    requires st.section == "attachments" && st.challenge.attachments != []
    ensures
      var moved := st.(challenge := Graft(st.section, other, st.challenge));
      Local(st.section, st.challenge, other, LastField(st, text), LastField(moved, text))
  {
  }

  lemma ScalarLocal(st: Reading, other: Challenge, text: string)
    requires text != "" && !EndsWith(text, ':') && !(st.section == "attachments" && IsItem(text))
    ensures
      var moved := st.(challenge := Graft(st.section, other, st.challenge));
      Local(st.section, st.challenge, other, Spec.Member(st, text), Spec.Member(moved, text))
  {
    var pair := SplitKeyValue(text);
    if pair.Split? {
      AssignLocal(st.section, st.challenge, other, pair.key, pair.value);
    }
  }

  lemma ItemLocal(st: Reading, other: Challenge, text: string)
    requires st.section == "attachments" && text != "" && IsItem(text)
    ensures
      var moved := st.(challenge := Graft(st.section, other, st.challenge));
      Local(st.section, st.challenge, other, Spec.Member(st, text), Spec.Member(moved, text))
  {
    var c := st.challenge;
    var added := Reading(st.section, InAttachment, c.(attachments := c.attachments + [Attachment("", "", "")]));
    LastFieldLocal(added, other, Trim(text[2..]));
  }

  lemma NestedLocal(st: Reading, other: Challenge, text: string)
    requires text != "" && EndsWith(text, ':') && !(st.section == "attachments" && IsItem(text))
    ensures
      var moved := st.(challenge := Graft(st.section, other, st.challenge));
      Local(st.section, st.challenge, other, Spec.Member(st, text), Spec.Member(moved, text))
  {
  }

  lemma MemberLocal(st: Reading, other: Challenge, text: string)
    requires text != ""
    ensures
      var moved := st.(challenge := Graft(st.section, other, st.challenge));
      Local(st.section, st.challenge, other, Spec.Member(st, text), Spec.Member(moved, text))
  {
    if st.section == "attachments" && IsItem(text) {
      ItemLocal(st, other, text);
    } else if EndsWith(text, ':') {
      NestedLocal(st, other, text);
    } else {
      ScalarLocal(st, other, text);
    }
  }

  lemma DetailLocal(st: Reading, other: Challenge, text: string)
    requires text != ""
    ensures
      var moved := st.(challenge := Graft(st.section, other, st.challenge));
      Local(st.section, st.challenge, other, Detail(st, text), Detail(moved, text))
  {
  }

  lemma StepLocal(st: Reading, other: Challenge, line: string)
    requires Payload(line) == "" || Indent(line) != 0
    ensures
      var moved := st.(challenge := Graft(st.section, other, st.challenge));
      Local(st.section, st.challenge, other, StepLine(st, line), StepLine(moved, line))
  {
    var text := Payload(line);
    if text != "" {
      MemberLocal(st, other, text);
      DetailLocal(st, other, text);
    } else {
      GraftAgain(st.section, st.challenge, other, other);
    }
  }

  lemma {:induction false} BodyLocal(st: Reading, other: Challenge, lines: seq<string>)
    requires forall l | l in lines :: Payload(l) == "" || Indent(l) != 0
    ensures
      var moved := st.(challenge := Graft(st.section, other, st.challenge));
      Local(st.section, st.challenge, other, ReadLines(st, lines), ReadLines(moved, lines))
    decreases |lines|
  {
    GraftAgain(st.section, st.challenge, other, other);
    if lines != [] {
      StepLocal(st, other, lines[0]);
      match StepLine(st, lines[0]) {
        case Ok(next) =>
          BodyLocal(next, other, lines[1..]);
          match ReadLines(next, lines[1..]) {
            case Ok(last) => GraftAgain(st.section, st.challenge, next.challenge, last.challenge);
            case Err(_) =>
          }
        case Err(_) =>
      }
    }
  }

  // What reading a section makes of a challenge.
  function SectionOf(c: Challenge, lines: seq<string>): Option<Challenge> {
    match ReadLines(Reading("", Nothing, c), lines) case Ok(st) => Some(st.challenge) case Err(_) => None
  }

  lemma SectionRead(st: Reading, lines: seq<string>)
    requires IsSection(lines)
    ensures ReadLines(st, lines) == ReadLines(Reading("", Nothing, st.challenge), lines)
  {
  }

  lemma SectionLocal(c: Challenge, other: Challenge, lines: seq<string>)
    requires IsSection(lines)
    ensures
      var name := NameOf(lines);
      match SectionOf(c, lines)
      case None => SectionOf(Graft(name, other, c), lines) == None
      case Some(d) => SectionOf(Graft(name, other, c), lines) == Some(Graft(name, other, d)) && d == Graft(name, c, d)
  {
    var name := NameOf(lines);
    var entered := if name == "runtime" then WithRuntime(c) else c;
    BodyLocal(Reading(name, Nothing, entered), other, lines[1..]);
  }

  // Two sections of different names may be exchanged.
  lemma SectionsCommute(c: Challenge, a: seq<string>, b: seq<string>)
    requires IsSection(a) && IsSection(b) && NameOf(a) != NameOf(b)
    requires SectionOf(c, a).Some? && SectionOf(SectionOf(c, a).value, b).Some?
    ensures
      SectionOf(c, b).Some? &&
      SectionOf(SectionOf(c, b).value, a) == SectionOf(SectionOf(c, a).value, b)
  {
    var m, n := NameOf(a), NameOf(b);
    var ca := SectionOf(c, a).value;
    SectionLocal(c, c, a);
    GraftAgain(n, ca, c, c);
    GraftsCommute(n, m, c, ca, ca);
    SectionLocal(c, ca, b);
    assert Graft(n, ca, c) == ca by { GraftsCommute(n, m, c, c, ca); GraftAgain(n, c, c, c); }
    var cb := SectionOf(c, b).value;
    SectionLocal(c, cb, a);
    assert Graft(m, cb, c) == cb by { GraftsCommute(m, n, c, c, cb); GraftAgain(m, c, c, c); }
    GraftsCommute(n, m, c, cb, ca);
  }

  // ---- A text made of sections ----------------------------------------------------------------

  function Joined(sections: seq<seq<string>>): seq<string> {
    if sections == [] then [] else sections[0] + Joined(sections[1..])
  }

  const READ: (Challenge, seq<string>) -> Option<Challenge> := (c, lines) => SectionOf(c, lines)

  lemma {:induction false} SectionsRead(st: Reading, sections: seq<seq<string>>)
    requires forall s | s in sections :: IsSection(s)
    ensures
      match Fold(READ, st.challenge, sections)
      case None => ReadLines(st, Joined(sections)).Err?
      case Some(c) => ReadLines(st, Joined(sections)).Ok? && ReadLines(st, Joined(sections)).value.challenge == c
    decreases |sections|
  {
    if sections != [] {
      var first, rest := sections[0], sections[1..];
      SectionRead(st, first);
      ReadConcat(st, first, Joined(rest));
      match ReadLines(st, first) {
        case Ok(next) => SectionsRead(next, rest);
        case Err(_) =>
      }
    }
  }

  // The sections of a text may be written in any order.
  lemma SectionOrder(x: seq<seq<string>>, y: seq<seq<string>>, tooLong: bool, v: string -> bool)
    requires forall s | s in x :: IsSection(s)
    requires forall s, t | s in x && t in x && s != t :: NameOf(s) != NameOf(t)
    requires multiset(x) == multiset(y)
    ensures Alike(Parse(Scan(Joined(x), tooLong), v), Parse(Scan(Joined(y), tooLong), v))
  {
    forall s | s in y ensures IsSection(s) {
      assert s in multiset(y);
    }
    forall c, s, t | s in x && t in x && s != t ensures Exchanges(READ, c, s, t) {
      if Both(READ, c, s, t).Some? { SectionsCommute(c, s, t); }
    }
    AnyOrderAgrees(READ, NO_CHALLENGE, x, y);
    SectionsRead(START, x);
    SectionsRead(START, y);
  }

  // ---- Scalars and nested blocks of one section -----------------------------------------------

  // A scalar line, or the opening of a nested block with the details below it.
  predicate IsUnit(lines: seq<string>) {
    && lines != [] && (IsScalarLine(lines[0]) || Opening(lines[0]) != Nothing)
    && forall l | l in lines[1..] :: IsDetail(l)
  }

  predicate IsDetail(line: string) { Payload(line) == "" || Indent(line) == 4 }

  // What a nested block is for; Nothing for a scalar.
  function Opening(line: string): Nested {
    if Indent(line) != 2 then Nothing
    else if Payload(line) == "env:" then Env
    else if Payload(line) == "command:" then Command
    else Nothing
  }

  // Units that may be exchanged: blocks of different kinds, a block and a scalar, or scalars of
  // different keys that are not in conflict.
  predicate Apart(u: seq<string>, w: seq<string>)
    requires IsUnit(u) && IsUnit(w)
  {
    if Opening(u[0]) == Nothing && Opening(w[0]) == Nothing then
      && KeyAt(u[0]) != KeyAt(w[0])
      && !Conflict(KeyAt(u[0]), Scalar(ValueAt(u[0])), KeyAt(w[0]), Scalar(ValueAt(w[0])))
    else Opening(u[0]) != Opening(w[0])
  }

  // The section being read has its runtime.
  function Within(section: string, c: Challenge): Challenge {
    if section == "runtime" then WithRuntime(c) else c
  }

  // What reading a unit makes of a challenge.
  function UnitOf(section: string, c: Challenge, lines: seq<string>): Option<Challenge> {
    match ReadLines(Reading(section, Nothing, Within(section, c)), lines)
    case Ok(st) => Some(st.challenge)
    case Err(_) => None
  }

  lemma DetailStays(st: Reading, line: string)
    requires IsDetail(line)
    ensures StepLine(st, line).Ok? ==>
              StepLine(st, line).value.section == st.section && StepLine(st, line).value.nested == st.nested
  {
  }

  lemma DetailRefused(st: Reading, line: string)
    requires st.nested == Nothing && IsDetail(line) && Payload(line) != ""
    ensures StepLine(st, line).Err?
  {
  }

  lemma {:induction false} DetailsStay(st: Reading, lines: seq<string>)
    requires forall l | l in lines :: IsDetail(l)
    ensures ReadLines(st, lines).Ok? ==>
              ReadLines(st, lines).value.section == st.section && ReadLines(st, lines).value.nested == st.nested
    decreases |lines|
  {
    if lines != [] {
      DetailStays(st, lines[0]);
      match StepLine(st, lines[0]) {
        case Ok(next) => DetailsStay(next, lines[1..]);
        case Err(_) =>
      }
    }
  }

  // A scalar is followed by blank lines only.
  lemma {:induction false} NoDetails(st: Reading, lines: seq<string>)
    requires st.nested == Nothing && forall l | l in lines :: IsDetail(l)
    ensures ReadLines(st, lines).Ok? <==> forall l | l in lines :: Payload(l) == ""
    ensures ReadLines(st, lines).Ok? ==> ReadLines(st, lines) == Ok(st)
    decreases |lines|
  {
    if lines != [] {
      assert lines == [lines[0]] + lines[1..];
      if Payload(lines[0]) == "" {
        NoDetails(st, lines[1..]);
      } else {
        DetailRefused(st, lines[0]);
      }
    }
  }

  lemma ScalarUnit(section: string, c: Challenge, u: seq<string>)
    requires IsUnit(u) && Opening(u[0]) == Nothing
    ensures UnitOf(section, c, u) ==
            if forall l | l in u[1..] :: Payload(l) == ""
            then Accepted(Assign(Within(section, c), section, KeyAt(u[0]), ValueAt(u[0]))) else None
  {
    var st := Reading(section, Nothing, Within(section, c));
    ScalarStep(st, u[0]);
    match StepLine(st, u[0]) {
      case Ok(next) => NoDetails(next, u[1..]);
      case Err(_) =>
    }
  }

  // The first challenge with one part of its runtime taken from the second: the environment, the
  // command, or all scalars.
  function GraftPart(part: Nested, c: Challenge, d: Challenge): Challenge {
    var q, r := RuntimeOf(c), RuntimeOf(d);
    c.(runtime := Some(
      match part
      case Env => q.(env := r.env)
      case Command => q.(command := r.command)
      case _ => r.(env := q.env, command := q.command)))
  }

  lemma PartsCommute(s: Nested, t: Nested, c: Challenge, d: Challenge, e: Challenge)
    requires s != t && s != InAttachment && t != InAttachment
    ensures GraftPart(s, GraftPart(t, c, e), d) == GraftPart(t, GraftPart(s, c, d), e)
  {
  }

  lemma PartAgain(s: Nested, c: Challenge, d: Challenge, e: Challenge)
    ensures GraftPart(s, c, c) == WithRuntime(c) && GraftPart(s, GraftPart(s, c, d), e) == GraftPart(s, c, e)
    ensures GraftPart(s, c, GraftPart(s, d, e)) == GraftPart(s, c, e)
  {
  }

  // A reading of a nested block that differs outside the block's part.
  function MovedPart(other: Challenge, r: Result<Reading>): Result<Reading> {
    match r
    case Ok(st) => Ok(st.(challenge := GraftPart(st.nested, other, st.challenge)))
    case Err(e) => Err(e)
  }

  ghost predicate LocalPart(st: Reading, other: Challenge, here: Result<Reading>, there: Result<Reading>) {
    && there == MovedPart(other, here)
    && (here.Ok? ==> here.value == st.(challenge := GraftPart(st.nested, st.challenge, here.value.challenge)))
  }

  lemma DetailPart(st: Reading, other: Challenge, text: string)
    requires text != "" && st.section == "runtime" && st.nested in {Env, Command}
    ensures
      var moved := st.(challenge := GraftPart(st.nested, other, st.challenge));
      LocalPart(st, other, Detail(st, text), Detail(moved, text))
  {
  }

  lemma StepPart(st: Reading, other: Challenge, line: string)
    requires st.section == "runtime" && st.nested in {Env, Command} && st.challenge.runtime.Some? && IsDetail(line)
    ensures
      var moved := st.(challenge := GraftPart(st.nested, other, st.challenge));
      LocalPart(st, other, StepLine(st, line), StepLine(moved, line))
  {
    if Payload(line) != "" {
      DetailPart(st, other, Payload(line));
    } else {
      PartAgain(st.nested, st.challenge, other, other);
    }
  }

  lemma LocalTwice(st: Reading, other: Challenge, next: Reading, here: Result<Reading>, there: Result<Reading>)
    requires LocalPart(next, other, here, there)
    requires next == st.(challenge := GraftPart(st.nested, st.challenge, next.challenge))
    ensures LocalPart(st, other, here, there)
  {
    if here.Ok? { PartAgain(st.nested, st.challenge, next.challenge, here.value.challenge); }
  }

  // A nested block is read alike whatever the other parts are, and leaves them alone.
  lemma {:induction false} BlockPart(st: Reading, other: Challenge, lines: seq<string>)
    requires st.section == "runtime" && st.nested in {Env, Command} && st.challenge.runtime.Some?
    requires forall l | l in lines :: IsDetail(l)
    ensures
      var moved := st.(challenge := GraftPart(st.nested, other, st.challenge));
      LocalPart(st, other, ReadLines(st, lines), ReadLines(moved, lines))
    decreases |lines|
  {
    if lines == [] {
      PartAgain(st.nested, st.challenge, other, other);
    } else {
      StepPart(st, other, lines[0]);
      var moved := st.(challenge := GraftPart(st.nested, other, st.challenge));
      match StepLine(st, lines[0]) {
        case Ok(next) =>
          BlockPart(next, other, lines[1..]);
          var there := next.(challenge := GraftPart(next.nested, other, next.challenge));
          LocalTwice(st, other, next, ReadLines(next, lines[1..]), ReadLines(there, lines[1..]));
        case Err(_) =>
      }
    }
  }

  lemma ScalarPart(c: Challenge, other: Challenge, key: string, value: string)
    requires c.runtime.Some?
    ensures
      match Assign(c, "runtime", key, value)
      case Err(e) => Assign(GraftPart(Nothing, other, c), "runtime", key, value).Err?
      case Ok(d) =>
        && Assign(GraftPart(Nothing, other, c), "runtime", key, value) == Ok(GraftPart(Nothing, other, d))
        && d == GraftPart(Nothing, c, d)
  {
    var v, r, q := Scalar(value), RuntimeOf(c), RuntimeOf(GraftPart(Nothing, other, c));
    AssignElsewhere(r, q.env, q.command, key, v);
    RuntimeTexts(r, key, v);
    RuntimeTimes(r, key, v);
    RuntimeRest(r, key, v);
  }

  lemma AssignElsewhere(r: Runtime, env: map<string, string>, command: seq<string>, key: string, v: string)
    ensures
      var moved := AssignRuntime(r.(env := env, command := command), key, v);
      match AssignRuntime(r, key, v)
      case Err(_) => moved.Err?
      case Ok(x) => moved == Ok(x.(env := env, command := command))
  {
    var q := r.(env := env, command := command);
    RuntimeAccepts(r, q, key, v);
    RuntimeTexts(r, key, v);
    RuntimeTimes(r, key, v);
    RuntimeRest(r, key, v);
    RuntimeTexts(q, key, v);
    RuntimeTimes(q, key, v);
    RuntimeRest(q, key, v);
    RuntimeNumbers(r, key, v);
    RuntimeSizes(r, key, v);
    RuntimeNumbers(q, key, v);
    RuntimeSizes(q, key, v);
    RuntimeRenewals(r, key, v);
    RuntimeRenewals(q, key, v);
  }

  lemma BlockOpens(c: Challenge, u: seq<string>)
    requires IsUnit(u) && Opening(u[0]) != Nothing
    ensures ReadLines(Reading("runtime", Nothing, WithRuntime(c)), u) ==
            ReadLines(Reading("runtime", Opening(u[0]), WithRuntime(c)), u[1..])
  {
  }

  lemma UnitPart(c: Challenge, other: Challenge, u: seq<string>)
    requires IsUnit(u) && c.runtime.Some?
    ensures
      var part := Opening(u[0]);
      match UnitOf("runtime", c, u)
      case None => UnitOf("runtime", GraftPart(part, other, c), u) == None
      case Some(d) =>
        && UnitOf("runtime", GraftPart(part, other, c), u) == Some(GraftPart(part, other, d))
        && d == GraftPart(part, c, d)
  {
    var part := Opening(u[0]);
    var moved := GraftPart(part, other, c);
    assert WithRuntime(c) == c && WithRuntime(moved) == moved;
    if part == Nothing {
      ScalarUnit("runtime", c, u);
      ScalarUnit("runtime", moved, u);
      ScalarPart(c, other, KeyAt(u[0]), ValueAt(u[0]));
    } else {
      BlockOpens(c, u);
      BlockOpens(moved, u);
      BlockPart(Reading("runtime", part, c), other, u[1..]);
    }
  }

  lemma PartsExchange(c: Challenge, u: seq<string>, w: seq<string>)
    requires IsUnit(u) && IsUnit(w) && Opening(u[0]) != Opening(w[0]) && c.runtime.Some?
    requires UnitOf("runtime", c, u).Some? && UnitOf("runtime", UnitOf("runtime", c, u).value, w).Some?
    ensures
      UnitOf("runtime", c, w).Some? &&
      UnitOf("runtime", UnitOf("runtime", c, w).value, u) == UnitOf("runtime", UnitOf("runtime", c, u).value, w)
  {
    var m, n := Opening(u[0]), Opening(w[0]);
    var cu := UnitOf("runtime", c, u).value;
    UnitPart(c, c, u);
    PartAgain(n, cu, c, c);
    assert WithRuntime(c) == c && WithRuntime(cu) == cu;
    UnitPart(c, cu, w);
    assert GraftPart(n, cu, c) == cu by { PartsCommute(n, m, c, c, cu); PartAgain(n, c, c, c); }
    var cw := UnitOf("runtime", c, w).value;
    UnitPart(c, cw, u);
    assert GraftPart(m, cw, c) == cw by { PartsCommute(m, n, c, c, cw); PartAgain(m, c, c, c); }
    PartsCommute(n, m, c, cw, cu);
  }

  lemma UnitWithin(section: string, c: Challenge, u: seq<string>)
    ensures UnitOf(section, Within(section, c), u) == UnitOf(section, c, u)
  {
  }

  lemma OpeningRefused(st: Reading, line: string)
    requires Opening(line) != Nothing && st.section != "runtime"
    ensures StepLine(st, line).Err?
  {
    var text := Payload(line);
    assert text[0] != '-' && EndsWith(text, ':');
    assert Spec.Member(st, text) == Err(NestedUnsupported);
  }

  // A block opens only in the runtime section.
  lemma BlockElsewhere(section: string, c: Challenge, u: seq<string>)
    requires IsUnit(u) && Opening(u[0]) != Nothing && section != "runtime"
    ensures UnitOf(section, c, u) == None
  {
    OpeningRefused(Reading(section, Nothing, c), u[0]);
  }

  lemma ScalarUnitsExchange(section: string, c: Challenge, u: seq<string>, w: seq<string>)
    requires IsUnit(u) && IsUnit(w) && Opening(u[0]) == Opening(w[0]) == Nothing && Apart(u, w)
    requires UnitOf(section, c, u).Some? && UnitOf(section, UnitOf(section, c, u).value, w).Some?
    ensures
      UnitOf(section, c, w).Some? &&
      UnitOf(section, UnitOf(section, c, w).value, u) == UnitOf(section, UnitOf(section, c, u).value, w)
  {
    var d := Within(section, c);
    var cu := UnitOf(section, c, u).value;
    ScalarUnit(section, c, u);
    ScalarUnit(section, cu, w);
    ScalarUnit(section, c, w);
    StaysWithin(section, d, KeyAt(u[0]), ValueAt(u[0]));
    StaysWithin(section, d, KeyAt(w[0]), ValueAt(w[0]));
    ScalarsCommute(d, section, KeyAt(u[0]), ValueAt(u[0]), KeyAt(w[0]), ValueAt(w[0]));
    ScalarUnit(section, UnitOf(section, c, w).value, u);
  }

  lemma StaysWithin(section: string, c: Challenge, key: string, value: string)
    ensures Assign(c, section, key, value).Ok? ==>
              Within(section, Assign(c, section, key, value).value) == Assign(c, section, key, value).value
  {
  }

  lemma UnitsExchange(section: string, c: Challenge, u: seq<string>, w: seq<string>)
    requires IsUnit(u) && IsUnit(w) && Apart(u, w)
    requires UnitOf(section, c, u).Some? && UnitOf(section, UnitOf(section, c, u).value, w).Some?
    ensures
      UnitOf(section, c, w).Some? &&
      UnitOf(section, UnitOf(section, c, w).value, u) == UnitOf(section, UnitOf(section, c, u).value, w)
  {
    if Opening(u[0]) == Opening(w[0]) {
      ScalarUnitsExchange(section, c, u, w);
    } else {
      if section != "runtime" {
        if Opening(u[0]) != Nothing { BlockElsewhere(section, c, u); }
        else { BlockElsewhere(section, UnitOf(section, c, u).value, w); }
      } else {
        UnitWithin(section, c, u);
        UnitWithin(section, c, w);
        PartsExchange(WithRuntime(c), u, w);
      }
    }
  }

  function ReadUnit(section: string): (Challenge, seq<string>) -> Option<Challenge> {
    (c, lines) => UnitOf(section, c, lines)
  }

  lemma UnitRead(st: Reading, u: seq<string>)
    requires IsUnit(u) && Opened(st)
    ensures ReadLines(st, u) == ReadLines(Reading(st.section, Nothing, Within(st.section, st.challenge)), u)
    ensures ReadLines(st, u).Ok? ==> ReadLines(st, u).value.section == st.section && Opened(ReadLines(st, u).value)
  {
    OpenedStep(st, u[0]);
    match StepLine(st, u[0]) {
      case Ok(next) =>
        DetailsStay(next, u[1..]);
        OpenedThroughout(next, u[1..]);
      case Err(_) =>
    }
  }

  lemma {:induction false} OpenedThroughout(st: Reading, lines: seq<string>)
    requires Opened(st)
    ensures ReadLines(st, lines).Ok? ==> Opened(ReadLines(st, lines).value)
    decreases |lines|
  {
    if lines != [] {
      OpenedStep(st, lines[0]);
      match StepLine(st, lines[0]) {
        case Ok(next) => OpenedThroughout(next, lines[1..]);
        case Err(_) =>
      }
    }
  }

  lemma {:induction false} UnitsRead(st: Reading, units: seq<seq<string>>)
    requires Opened(st) && forall u | u in units :: IsUnit(u)
    ensures
      match Fold(ReadUnit(st.section), st.challenge, units)
      case None => ReadLines(st, Joined(units)).Err?
      case Some(c) =>
        && ReadLines(st, Joined(units)).Ok?
        && ReadLines(st, Joined(units)).value.section == st.section
        && ReadLines(st, Joined(units)).value.challenge == c
    decreases |units|
  {
    if units != [] {
      var first, rest := units[0], units[1..];
      UnitRead(st, first);
      ReadConcat(st, first, Joined(rest));
      match ReadLines(st, first) {
        case Ok(next) => UnitsRead(next, rest);
        case Err(_) =>
      }
    }
  }

  // What follows begins a member or a section, so no nested block goes on in it.
  predicate Restarts(lines: seq<string>) {
    lines == [] || (Payload(lines[0]) != "" && Indent(lines[0]) != 4)
  }

  lemma NestedForgotten(st: Reading, nested: Nested, lines: seq<string>)
    requires Restarts(lines)
    ensures
      match ReadLines(st, lines)
      case Err(e) => ReadLines(st.(nested := nested), lines) == Err(e)
      case Ok(last) =>
        && ReadLines(st.(nested := nested), lines).Ok?
        && ReadLines(st.(nested := nested), lines).value.challenge == last.challenge
  {
  }

  // The scalars and nested blocks of a section may be written in any order, the scalars on either
  // side of a block.
  lemma UnitOrder(
    a: seq<string>, x: seq<seq<string>>, y: seq<seq<string>>, b: seq<string>, tooLong: bool, v: string -> bool)
    requires forall u | u in x :: IsUnit(u)
    requires forall u, w | u in x && w in x && u != w :: Apart(u, w)
    requires multiset(x) == multiset(y) && Restarts(b)
    ensures Alike(Parse(Scan(a + Joined(x) + b, tooLong), v), Parse(Scan(a + Joined(y) + b, tooLong), v))
  {
    ReadConcat(START, a + Joined(x), b);
    ReadConcat(START, a + Joined(y), b);
    ReadConcat(START, a, Joined(x));
    ReadConcat(START, a, Joined(y));
    OpenedThroughout(START, a);
    match ReadLines(START, a) {
      case Ok(st) =>
        UnitsAlike(st, x, y);
        match ReadLines(st, Joined(x)) {
          case Ok(end) => NestedForgotten(end, ReadLines(st, Joined(y)).value.nested, b);
          case Err(_) =>
        }
      case Err(_) =>
    }
  }

  lemma UnitsAlike(st: Reading, x: seq<seq<string>>, y: seq<seq<string>>)
    requires Opened(st) && multiset(x) == multiset(y)
    requires forall u | u in x :: IsUnit(u)
    requires forall u, w | u in x && w in x && u != w :: Apart(u, w)
    ensures
      match ReadLines(st, Joined(x))
      case Err(_) => ReadLines(st, Joined(y)).Err?
      case Ok(end) =>
        && ReadLines(st, Joined(y)).Ok?
        && ReadLines(st, Joined(y)).value == end.(nested := ReadLines(st, Joined(y)).value.nested)
  {
    forall u | u in y ensures IsUnit(u) {
      assert u in multiset(y);
    }
    UnitsCommute(st.section, x);
    AnyOrderAgrees(ReadUnit(st.section), st.challenge, x, y);
    UnitsRead(st, x);
    UnitsRead(st, y);
  }

  lemma UnitsCommute(section: string, x: seq<seq<string>>)
    requires forall u | u in x :: IsUnit(u)
    requires forall u, w | u in x && w in x && u != w :: Apart(u, w)
    ensures Commute(ReadUnit(section), x)
  {
    var f := ReadUnit(section);
    forall c, u, w | u in x && w in x && u != w ensures Exchanges(f, c, u, w) {
      if Both(f, c, u, w).Some? { UnitsExchange(section, c, u, w); }
    }
  }

  // The two spellings of the renewal limit do not commute: the last one wins.
  lemma RenewalSpellings()
    ensures
      var c := WithRuntime(NO_CHALLENGE);
      && Assigned(c, "runtime", "max_renew_count", "5", "renew_allowed", "no") == Ok(c)
      && Assigned(c, "runtime", "renew_allowed", "no", "max_renew_count", "5") ==
         Ok(c.(runtime := Some(NEW_RUNTIME.(maxRenew := 5))))
  {
    assert Scalar("5") == "5" && Scalar("no") == "no";
    assert "5"[..0] == "";
    assert Atoi("5") == Some(5);
    assert Lower("no") == "no";
    assert ParseBool("no") == Some(false);
  }
}
