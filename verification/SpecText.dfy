// Text handling of the challenge importer: trimming, quotes, comments and scalars.

module SpecText {
  import opened Options
  import opened Decimal

  // ---- Trimming -------------------------------------------------------------------------------

  // strings.TrimSpace on ASCII text.
  predicate IsSpace(c: char) {
    c == ' ' || c == '\t' || c == '\n' || c == '\U{0B}' || c == '\U{0C}' || c == '\r'
  }

  predicate IsBlank(c: char) { c == ' ' }

  predicate IsDouble(c: char) { c == '"' }

  predicate IsSingle(c: char) { c == '\'' }

  function StripLeft(s: string, p: char -> bool): string {
    if s != "" && p(s[0]) then StripLeft(s[1..], p) else s
  }

  function StripRight(s: string, p: char -> bool): string {
    if s != "" && p(s[|s| - 1]) then StripRight(s[..|s| - 1], p) else s
  }

  function Strip(s: string, p: char -> bool): string {
    StripRight(StripLeft(s, p), p)
  }

  function Trim(s: string): string { Strip(s, IsSpace) }

  // Nothing to strip at either end.
  predicate Tight(s: string, p: char -> bool) {
    s != "" ==> !p(s[0]) && !p(s[|s| - 1])
  }

  lemma {:induction false} StripLeftSuffix(s: string, p: char -> bool)
    ensures var r := StripLeft(s, p); |r| <= |s| && r == s[|s| - |r|..] && (r != "" ==> !p(r[0]))
  {
    if s != "" && p(s[0]) {
      var rest, r := s[1..], StripLeft(s, p);
      StripLeftSuffix(rest, p);
      assert rest[|rest| - |r|..] == s[|s| - |r|..];
    }
  }

  lemma {:induction false} StripLeftGone(s: string, p: char -> bool)
    ensures forall i | 0 <= i < |s| - |StripLeft(s, p)| :: p(s[i])
  {
    if s != "" && p(s[0]) {
      StripLeftGone(s[1..], p);
      forall i | 0 <= i < |s| - |StripLeft(s, p)| ensures p(s[i]) {
        assert i > 0 ==> s[i] == s[1..][i - 1];
      }
    }
  }

  lemma StripLeftShape(s: string, p: char -> bool)
    ensures var r := StripLeft(s, p); |r| <= |s| && r == s[|s| - |r|..] && (r != "" ==> !p(r[0]))
    ensures forall i | 0 <= i < |s| - |StripLeft(s, p)| :: p(s[i])
  {
    StripLeftSuffix(s, p);
    StripLeftGone(s, p);
  }

  lemma {:induction false} StripRightShape(s: string, p: char -> bool)
    ensures var r := StripRight(s, p); |r| <= |s| && r == s[..|r|] && (r != "" ==> !p(r[|r| - 1]))
    ensures forall i | |StripRight(s, p)| <= i < |s| :: p(s[i])
  {
    if s != "" && p(s[|s| - 1]) {
      StripRightShape(s[..|s| - 1], p);
    }
  }

  lemma StripTight(s: string, p: char -> bool)
    ensures Tight(Strip(s, p), p)
  {
    StripLeftShape(s, p);
    StripRightShape(StripLeft(s, p), p);
  }

  lemma TightKept(s: string, p: char -> bool)
    requires Tight(s, p)
    ensures Strip(s, p) == s
  {
  }

  // Stripping removes a run of p characters from each end of a tight core.
  lemma {:induction false} StripCore(left: string, core: string, right: string, p: char -> bool)
    requires Tight(core, p) && core != ""
    requires (forall i | 0 <= i < |left| :: p(left[i])) && (forall i | 0 <= i < |right| :: p(right[i]))
    ensures Strip(left + core + right, p) == core
    ensures StripLeft(left + core + right, p) == core + right
    decreases |left| + |right|
  {
    if left != "" {
      assert (left + core + right)[1..] == left[1..] + core + right;
      StripCore(left[1..], core, right, p);
    } else if right != "" {
      assert left + core + right == core + right;
      var shorter := right[..|right| - 1];
      assert (core + right)[..|core + right| - 1] == core + shorter;
      StripCore("", core, shorter, p);
      assert "" + core + shorter == core + shorter;
    } else {
      assert left + core + right == core;
    }
  }

  lemma {:induction false} StripAll(s: string, p: char -> bool)
    requires forall i | 0 <= i < |s| :: p(s[i])
    ensures StripLeft(s, p) == "" && Strip(s, p) == ""
  {
    if s != "" {
      StripAll(s[1..], p);
    }
  }

  // strings.ToLower on ASCII text.
  function LowerChar(c: char): char {
    if 'A' <= c <= 'Z' then (c as int + 32) as char else c
  }

  function Lower(s: string): string {
    seq(|s|, i requires 0 <= i < |s| => LowerChar(s[i]))
  }

  lemma LowerTight(s: string)
    requires Tight(s, IsSpace)
    ensures Tight(Lower(s), IsSpace) && Lower(Lower(s)) == Lower(s) && (Lower(s) == "" <==> s == "")
  {
  }

  predicate LettersAlike(x: char, y: char) {
    || x == y
    || ('A' <= x <= 'Z' && y as int == x as int + 32)
    || ('A' <= y <= 'Z' && x as int == y as int + 32)
  }

  // Equal up to letter case, character by character.
  predicate AlikeButCase(a: string, b: string) {
    |a| == |b| && forall i | 0 <= i < |a| :: LettersAlike(a[i], b[i])
  }

  lemma LowerCharsAlike(x: char, y: char)
    ensures LowerChar(x) == LowerChar(y) <==> LettersAlike(x, y)
    ensures LettersAlike(x, LowerChar(x)) && !('A' <= LowerChar(x) <= 'Z')
  {
  }

  // Two texts are folded alike exactly if they differ in letter case only.
  lemma LowerAlike(a: string, b: string)
    ensures Lower(a) == Lower(b) <==> AlikeButCase(a, b)
  {
    if Lower(a) == Lower(b) {
      forall i | 0 <= i < |a| ensures LettersAlike(a[i], b[i]) {
        assert Lower(a)[i] == LowerChar(a[i]) && Lower(b)[i] == LowerChar(b[i]);
        LowerCharsAlike(a[i], b[i]);
      }
    }
    if AlikeButCase(a, b) {
      forall i | 0 <= i < |a| ensures Lower(a)[i] == Lower(b)[i] {
        LowerCharsAlike(a[i], b[i]);
      }
    }
  }

  // ---- Comments -------------------------------------------------------------------------------

  datatype Quotes = Quotes(single: bool, double: bool) {
    predicate Outside() { !single && !double }

    function Next(c: char): Quotes {
      if c == '\'' && !double then Quotes(!single, double)
      else if c == '"' && !single then Quotes(single, !double)
      else this
    }
  }

  // The quotes open after a text.
  function QuotesAfter(q: Quotes, s: string): Quotes
    decreases |s|
  {
    if s == "" then q else QuotesAfter(q.Next(s[0]), s[1..])
  }

  function Uncommented(q: Quotes, line: string): string
    decreases |line|
  {
    if line == "" then ""
    else if line[0] == '#' && q.Outside() then ""
    else [line[0]] + Uncommented(q.Next(line[0]), line[1..])
  }

  const UNQUOTED := Quotes(false, false)

  function WithoutComment(line: string): string { Uncommented(UNQUOTED, line) }

  // stripComment
  method StripComment(line: string) returns (r: string)
    ensures r == WithoutComment(line)
  {
    var inSingle, inDouble := false, false;
    var i := 0;
    while i < |line|
      invariant i <= |line|
      invariant Uncommented(UNQUOTED, line[..i]) == line[..i]
      invariant QuotesAfter(UNQUOTED, line[..i]) == Quotes(inSingle, inDouble)
    {
      StripStep(line, i);
      var c := line[i];
      if c == '\'' {
        if !inDouble { inSingle := !inSingle; }
      } else if c == '"' {
        if !inSingle { inDouble := !inDouble; }
      } else if c == '#' {
        if !inSingle && !inDouble { return line[..i]; }
      }
      i := i + 1;
    }
    assert line[..i] == line;
    return line;
  }

  // One more character read without meeting a comment.
  lemma StripStep(line: string, i: nat)
    requires i < |line| && Uncommented(UNQUOTED, line[..i]) == line[..i]
    ensures
      var q := QuotesAfter(UNQUOTED, line[..i]);
      if line[i] == '#' && q.Outside() then WithoutComment(line) == line[..i]
      else
        && Uncommented(UNQUOTED, line[..i + 1]) == line[..i + 1]
        && QuotesAfter(UNQUOTED, line[..i + 1]) == q.Next(line[i])
  {
    var q := QuotesAfter(UNQUOTED, line[..i]);
    if line[i] == '#' && q.Outside() {
      assert line == line[..i] + line[i..];
      UncommentedConcat(UNQUOTED, line[..i], line[i..]);
    } else {
      assert line[..i + 1] == line[..i] + [line[i]];
      UncommentedConcat(UNQUOTED, line[..i], [line[i]]);
      QuotesConcat(UNQUOTED, line[..i], [line[i]]);
      SingleCharacter(q, line[i]);
    }
  }

  lemma SingleCharacter(q: Quotes, c: char)
    requires !(c == '#' && q.Outside())
    ensures Uncommented(q, [c]) == [c] && QuotesAfter(q, [c]) == q.Next(c)
  {
    assert [c][1..] == "";
    assert Uncommented(q.Next(c), "") == "";
    assert QuotesAfter(q.Next(c), "") == q.Next(c);
  }

  // A comment starts at i.
  predicate CommentAt(q: Quotes, line: string, i: nat)
    requires i < |line|
  {
    line[i] == '#' && QuotesAfter(q, line[..i]).Outside()
  }

  lemma {:induction false} QuotesConcat(q: Quotes, a: string, b: string)
    ensures QuotesAfter(q, a + b) == QuotesAfter(QuotesAfter(q, a), b)
    decreases |a|
  {
    if a == "" {
      assert a + b == b;
    } else {
      assert (a + b)[1..] == a[1..] + b;
      QuotesConcat(q.Next(a[0]), a[1..], b);
    }
  }

  // What remains is the longest prefix without an unquoted '#'.
  lemma {:induction false} LongestUncommented(q: Quotes, line: string)
    ensures
      var r := Uncommented(q, line);
      && |r| <= |line| && r == line[..|r|]
      && (forall i | 0 <= i < |r| :: !CommentAt(q, line, i))
      && (|r| < |line| ==> CommentAt(q, line, |r|))
    decreases |line|
  {
    if line != "" && !(line[0] == '#' && q.Outside()) {
      var rest, q' := line[1..], q.Next(line[0]);
      LongestUncommented(q', rest);
      var r := Uncommented(q, line);
      assert r == [line[0]] + rest[..|r| - 1];
      forall i | 0 <= i < |r| ensures !CommentAt(q, line, i) {
        if i > 0 {
          assert !CommentAt(q', rest, i - 1);
          assert line[..i][1..] == rest[..i - 1];
        }
      }
      if |r| < |line| {
        assert CommentAt(q', rest, |r| - 1);
        assert line[..|r|][1..] == rest[..|r| - 1];
      }
    }
  }

  lemma {:induction false} UncommentedConcat(q: Quotes, a: string, b: string)
    requires Uncommented(q, a) == a
    ensures Uncommented(q, a + b) == a + Uncommented(QuotesAfter(q, a), b)
    decreases |a|
  {
    if a == "" {
      assert a + b == b;
    } else {
      assert (a + b)[1..] == a[1..] + b;
      UncommentedConcat(q.Next(a[0]), a[1..], b);
    }
  }

  lemma CommentsStripped(line: string)
    ensures WithoutComment(WithoutComment(line)) == WithoutComment(line)
  {
    CommentFree(UNQUOTED, line);
  }

  lemma {:induction false} CommentFree(q: Quotes, line: string)
    ensures Uncommented(q, Uncommented(q, line)) == Uncommented(q, line)
    decreases |line|
  {
    if line != "" && !(line[0] == '#' && q.Outside()) {
      CommentFree(q.Next(line[0]), line[1..]);
      assert Uncommented(q, line)[1..] == Uncommented(q.Next(line[0]), line[1..]);
    }
  }

  // A comment may be appended: the line has one already, or ends outside quotes.
  predicate Closed(line: string) {
    WithoutComment(line) != line || QuotesAfter(UNQUOTED, line).Outside()
  }

  lemma {:induction false} CommentedAlready(q: Quotes, line: string, more: string)
    requires Uncommented(q, line) != line
    ensures Uncommented(q, line + more) == Uncommented(q, line)
    decreases |line|
  {
    assert line != "";
    if !(line[0] == '#' && q.Outside()) {
      assert (line + more)[1..] == line[1..] + more;
      CommentedAlready(q.Next(line[0]), line[1..], more);
    }
  }

  // Appending a comment is invisible exactly on closed lines.
  lemma AppendedComment(line: string, comment: string)
    ensures WithoutComment(line + "#" + comment) == WithoutComment(line) <==> Closed(line)
  {
    assert line + "#" + comment == line + ("#" + comment);
    if WithoutComment(line) != line {
      CommentedAlready(UNQUOTED, line, "#" + comment);
    } else {
      UncommentedConcat(UNQUOTED, line, "#" + comment);
      var tail := Uncommented(QuotesAfter(UNQUOTED, line), "#" + comment);
      assert QuotesAfter(UNQUOTED, line).Outside() ==> tail == "";
      assert !QuotesAfter(UNQUOTED, line).Outside() ==> |tail| > 0;
    }
  }

  // ---- Scalars --------------------------------------------------------------------------------

  // normalizeScalar
  function Scalar(value: string): string {
    Strip(Strip(Trim(value), IsDouble), IsSingle)
  }

  const INT_MIN := -0x8000_0000_0000_0000
  const INT_MAX := 0x7fff_ffff_ffff_ffff

  predicate FitsInt(i: int) { INT_MIN <= i <= INT_MAX }

  function Signed(negative: bool, n: int): int { if negative then -n else n }

  // strconv.Atoi on a 64-bit int.
  function Atoi(s: string): Option<int> {
    var negative := s != "" && s[0] == '-';
    var digits := if s != "" && (s[0] == '-' || s[0] == '+') then s[1..] else s;
    if digits == "" || !AllDigits(digits) then None
    else
      var n := Signed(negative, Value(digits));
      if FitsInt(n) then Some(n) else None
  }

  lemma AtoiItoa(i: int)
    requires FitsInt(i)
    ensures Atoi(Itoa(i)) == Some(i)
  {
    DigitsRead(if i < 0 then -i else i);
    if i < 0 {
      assert Itoa(i)[1..] == Digits(-i);
    } else {
      assert IsDigit(Itoa(i)[0]);
    }
  }

  // parseBool
  function ParseBool(value: string): Option<bool> {
    var v := Lower(Trim(value));
    if v in {"true", "yes", "on"} then Some(true)
    else if v in {"false", "no", "off"} then Some(false)
    else None
  }

  function BoolText(b: bool): string { if b then "true" else "false" }

  lemma BoolRead(b: bool)
    ensures ParseBool(BoolText(b)) == Some(b)
  {
    TightKept(BoolText(b), IsSpace);
    assert Lower("true") == "true";
    assert Lower("false") == "false";
  }

  // The number of leading digits.
  function DigitRun(s: string): nat {
    if s != "" && IsDigit(s[0]) then 1 + DigitRun(s[1..]) else 0
  }

  lemma {:induction false} DigitRunBound(s: string)
    ensures DigitRun(s) <= |s| && AllDigits(s[..DigitRun(s)])
  {
    if s != "" && IsDigit(s[0]) {
      DigitRunBound(s[1..]);
      assert s[..DigitRun(s)] == [s[0]] + s[1..][..DigitRun(s) - 1];
    }
  }

  function UnitSeconds(c: char): int {
    if c == 's' then 1 else if c == 'm' then 60 else if c == 'h' then 3600 else 0
  }

  // One or more groups of digits and a unit of seconds, minutes or hours.
  function Groups(s: string): Option<nat> {
    var n := DigitRun(s);
    DigitRunBound(s);
    if n == 0 || n == |s| || UnitSeconds(s[n]) == 0 then None
    else
      var here := Value(s[..n]) * UnitSeconds(s[n]);
      if n + 1 == |s| then Some(here)
      else match Groups(s[n + 1..]) case Some(rest) => Some(here + rest) case None => None
  }

  const MAX_SECONDS := INT_MAX / 1_000_000_000

  // time.ParseDuration for whole seconds.
  function ParseDuration(s: string): Option<int> {
    var negative := s != "" && s[0] == '-';
    var body := if s != "" && (s[0] == '-' || s[0] == '+') then s[1..] else s;
    if body == "0" then Some(0)
    else
      match Groups(body)
      case None => None
      case Some(n) => if n > MAX_SECONDS then None else Some(Signed(negative, n))
  }

  function DurationText(seconds: nat): string { Digits(seconds) + "s" }

  lemma {:induction false} DigitRunExact(digits: string, rest: string)
    requires AllDigits(digits) && (rest != "" ==> !IsDigit(rest[0]))
    ensures DigitRun(digits + rest) == |digits|
  {
    if digits == "" {
      assert digits + rest == rest;
    } else {
      assert (digits + rest)[1..] == digits[1..] + rest;
      DigitRunExact(digits[1..], rest);
    }
  }

  lemma DurationRead(seconds: nat)
    requires seconds <= MAX_SECONDS
    ensures ParseDuration(DurationText(seconds)) == Some(seconds)
  {
    DigitsRead(seconds);
    DigitRunExact(Digits(seconds), "s");
    var s := DurationText(seconds);
    assert s[..|Digits(seconds)|] == Digits(seconds);
    assert s[|Digits(seconds)|] == 's' && IsDigit(s[0]);
    assert Groups(s) == Some(seconds);
  }

  // splitKeyValue
  function FirstColon(s: string): nat {
    if s == "" then 0 else if s[0] == ':' then 0 else 1 + FirstColon(s[1..])
  }

  lemma {:induction false} FirstColonShape(s: string)
    ensures
      var n := FirstColon(s);
      n <= |s| && (n < |s| ==> s[n] == ':') && forall i | 0 <= i < n :: s[i] != ':'
  {
    if s != "" && s[0] != ':' {
      FirstColonShape(s[1..]);
    }
  }

  datatype Pair = Split(key: string, value: string) | ColonExpected | KeyEmpty

  // Key and value around the first colon.
  function SplitKeyValue(line: string): Pair {
    FirstColonShape(line);
    var n := FirstColon(line);
    if n == |line| then ColonExpected
    else if Trim(line[..n]) == "" then KeyEmpty
    else Split(Trim(line[..n]), Trim(line[n + 1..]))
  }
}
