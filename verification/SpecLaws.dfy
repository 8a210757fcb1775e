// What the text primitives and the normaliser of the importer mean, said without their functions.

module TextLaws {
  import opened Options
  import opened Decimal
  import opened SpecText
  import opened Spec
  import opened SpecPrint

  // ---- Letters and space ----------------------------------------------------------------------

  // The ASCII codes of white space.
  lemma SpaceCodes(c: char)
    ensures IsSpace(c) <==> 9 <= c as int <= 13 || c as int == 32
  {
  }

  // The lower-case form of a text is the one without capitals that differs in case only.
  lemma LowerExact(s: string, t: string)
    ensures Lower(s) == t <==> LowerCase(t) && AlikeButCase(s, t)
  {
    LowerFixed(s);
    LowerFixed(t);
    LowerAlike(s, t);
  }

  // ---- Comments -------------------------------------------------------------------------------

  lemma {:induction false} ToClosingQuote(q: Quotes, c: char, t: string, rest: string)
    requires (c == '"' && q == Quotes(false, true)) || (c == '\'' && q == Quotes(true, false))
    requires c !in t
    ensures Uncommented(q, t + [c] + rest) == t + [c] + WithoutComment(rest)
    decreases |t|
  {
    if t == "" {
      assert t + [c] + rest == [c] + rest;
      assert ([c] + rest)[1..] == rest;
    } else {
      assert (t + [c] + rest)[1..] == t[1..] + [c] + rest;
      assert q.Next(t[0]) == q;
      ToClosingQuote(q, c, t[1..], rest);
    }
  }

  lemma {:induction false} QuoteOpen(q: Quotes, c: char, t: string)
    requires (c == '"' && q == Quotes(false, true)) || (c == '\'' && q == Quotes(true, false))
    requires c !in t
    ensures Uncommented(q, t) == t
    decreases |t|
  {
    if t != "" {
      assert q.Next(t[0]) == q;
      QuoteOpen(q, c, t[1..]);
    }
  }

  // From a quote to the next one of its kind nothing is a comment, and after it the line goes on as
  // if nothing had been; a quote that is not closed protects the rest of the line.
  lemma QuotedKept(c: char, t: string, rest: string)
    requires c in {'"', '\''} && c !in t
    ensures WithoutComment([c] + t + [c] + rest) == [c] + t + [c] + WithoutComment(rest)
    ensures WithoutComment([c] + t) == [c] + t
  {
    var q := UNQUOTED.Next(c);
    ToClosingQuote(q, c, t, rest);
    QuoteOpen(q, c, t);
    assert ([c] + t + [c] + rest)[1..] == t + [c] + rest;
    assert [c] + t + [c] + WithoutComment(rest) == [c] + (t + [c] + WithoutComment(rest));
    assert ([c] + t)[1..] == t;
  }

  // Outside quotes only a '#' begins one.
  lemma PlainKept(t: string, rest: string)
    requires forall i | 0 <= i < |t| :: t[i] !in {'#', '"', '\''}
    ensures WithoutComment(t + rest) == t + WithoutComment(rest)
    ensures WithoutComment(t + "#" + rest) == t
  {
    NoQuotes(t);
    UncommentedConcat(UNQUOTED, t, rest);
    UncommentedConcat(UNQUOTED, t, "#" + rest);
    assert t + "#" + rest == t + ("#" + rest);
    assert Uncommented(UNQUOTED, "#" + rest) == "";
  }

  // ---- Scalars --------------------------------------------------------------------------------

  // Outermost white space goes first, then double quotes, then single ones.
  lemma ScalarLayers(
    core: string, s1: string, s2: string, d1: string, d2: string, w1: string, w2: string)
    requires core != "" && Tight(core, IsSingle) && Tight(s1 + core + s2, IsDouble)
    requires Tight(d1 + (s1 + core + s2) + d2, IsSpace)
    requires (forall i | 0 <= i < |s1| :: s1[i] == '\'') && (forall i | 0 <= i < |s2| :: s2[i] == '\'')
    requires (forall i | 0 <= i < |d1| :: d1[i] == '"') && (forall i | 0 <= i < |d2| :: d2[i] == '"')
    requires (forall i | 0 <= i < |w1| :: IsSpace(w1[i])) && (forall i | 0 <= i < |w2| :: IsSpace(w2[i]))
    ensures Scalar(w1 + (d1 + (s1 + core + s2) + d2) + w2) == core
  {
    StripCore(w1, d1 + (s1 + core + s2) + d2, w2, IsSpace);
    StripCore(d1, s1 + core + s2, d2, IsDouble);
    StripCore(s1, core, s2, IsSingle);
  }

  // ---- Numbers --------------------------------------------------------------------------------

  // Decimal notation, digit by digit.
  lemma DigitsByTen(n: nat, d: nat)
    requires d < 10
    ensures Digits(d) == ["0123456789"[d]]
    ensures n > 0 ==> Digits(10 * n + d) == Digits(n) + ["0123456789"[d]]
  {
    assert (10 * n + d) / 10 == n && (10 * n + d) % 10 == d;
  }

  lemma {:induction false} LeadingZero(d: string)
    requires AllDigits(d)
    ensures AllDigits("0" + d) && Value("0" + d) == Value(d)
    decreases |d|
  {
    if d == "" {
      assert "0" + d == "0" && "0"[..0] == "";
    } else {
      var front := d[..|d| - 1];
      LeadingZero(front);
      assert ("0" + d)[..|"0" + d| - 1] == "0" + front;
    }
  }

  // The texts of 64-bit integers: digits that may have a sign, and nothing else.
  lemma AtoiExact(d: string)
    requires d != "" && AllDigits(d)
    ensures Atoi(d) == Atoi("+" + d) == if Value(d) < 0x8000_0000_0000_0000 then Some(Value(d)) else None
    ensures var n := -(Value(d) as int); Atoi("-" + d) == if -0x8000_0000_0000_0000 <= n then Some(n) else None
  {
    assert IsDigit(d[0]);
    assert ("+" + d)[1..] == d && ("-" + d)[1..] == d;
  }

  lemma AtoiRefuses(s: string)
    ensures Atoi(s).Some? ==> exists d :: d != "" && AllDigits(d) && s in {d, "+" + d, "-" + d}
  {
    if Atoi(s).Some? {
      var d := if s[0] == '-' || s[0] == '+' then s[1..] else s;
      assert s == [s[0]] + s[1..];
      assert d != "" && AllDigits(d) && s in {d, "+" + d, "-" + d};
    }
  }

  // ---- Durations ------------------------------------------------------------------------------

  // Where the first number of a text ends.
  lemma FirstNumber(d: string, unit: char, rest: string)
    requires AllDigits(d) && d != "" && !IsDigit(unit)
    ensures
      var s := d + [unit] + rest;
      DigitRun(s) == |d| && |d| < |s| && s[..|d|] == d && s[|d|] == unit && s[|d| + 1..] == rest
  {
    assert d + [unit] + rest == d + ([unit] + rest);
    DigitRunExact(d, [unit] + rest);
  }

  // n hours, minutes or seconds.
  function InSeconds(n: nat, unit: char): nat {
    if unit == 'h' then 3600 * n else if unit == 'm' then 60 * n else n
  }

  // A number and its unit, and what follows.
  lemma GroupRead(n: nat, unit: char, rest: string)
    requires !IsDigit(unit)
    ensures
      var r := Groups(Digits(n) + [unit] + rest);
      if unit !in {'h', 'm', 's'} then r == None
      else
        r == if rest == "" then Some(InSeconds(n, unit))
             else match Groups(rest) case Some(more) => Some(InSeconds(n, unit) + more) case None => None
  {
    DigitsRead(n);
    FirstNumber(Digits(n), unit, rest);
  }

  lemma GroupBegins(n: nat, unit: char, rest: string)
    ensures var s := Digits(n) + [unit] + rest; |s| > 1 && IsDigit(s[0])
  {
    DigitsRead(n);
  }

  lemma UnsignedRead(s: string)
    requires |s| > 1 && IsDigit(s[0])
    ensures ParseDuration(s) ==
            match Groups(s) case None => None case Some(k) => if k <= MAX_SECONDS then Some(k) else None
  {
  }

  // Hours, minutes and seconds add up: a number and its unit before a text that reads as k seconds.
  lemma GroupThen(n: nat, unit: char, rest: string, k: nat)
    requires unit in {'h', 'm', 's'} && if rest == "" then k == 0 else Groups(rest) == Some(k)
    ensures
      var s, total := Digits(n) + [unit] + rest, InSeconds(n, unit) + k;
      Groups(s) == Some(total) && ParseDuration(s) == if total <= MAX_SECONDS then Some(total) else None
  {
    GroupRead(n, unit, rest);
    GroupBegins(n, unit, rest);
    UnsignedRead(Digits(n) + [unit] + rest);
  }

  // A unit is asked for, except with zero, and a sign may stand in front.
  lemma DurationRefuses(n: nat, t: string)
    requires t != "" && t[0] !in {'+', '-'}
    ensures ParseDuration(Digits(n)) == if n == 0 then Some(0) else None
    ensures ParseDuration("+" + t) == ParseDuration(t)
    ensures ParseDuration("-" + t) == match ParseDuration(t) case Some(k) => Some(-k) case None => None
    ensures ParseDuration("") == None
  {
    DigitsRead(n);
    assert IsDigit(Digits(n)[0]);
    DigitRunExact(Digits(n), "");
    assert Digits(n) + "" == Digits(n);
    if n < 10 { DigitsByTen(1, n); } else { DigitsLonger(n); }
    assert ("+" + t)[1..] == t && ("-" + t)[1..] == t;
  }

  lemma DigitsLonger(n: nat)
    requires n >= 10
    ensures |Digits(n)| > 1
  {
    DigitsRead(n / 10);
  }

  // ---- Switches, keys, indents ----------------------------------------------------------------

  // The spellings of a switch, in any case and with space around them, and no others.
  lemma BoolSpellings(v: string)
    ensures ParseBool(v) == Some(true) <==>
            AlikeButCase(Trim(v), "true") || AlikeButCase(Trim(v), "yes") || AlikeButCase(Trim(v), "on")
    ensures ParseBool(v) == Some(false) <==>
            AlikeButCase(Trim(v), "false") || AlikeButCase(Trim(v), "no") || AlikeButCase(Trim(v), "off")
  {
    LowerExact(Trim(v), "true");
    LowerExact(Trim(v), "yes");
    LowerExact(Trim(v), "on");
    LowerExact(Trim(v), "false");
    LowerExact(Trim(v), "no");
    LowerExact(Trim(v), "off");
  }

  // A line is split at its first colon.
  lemma SplitExact(a: string, b: string)
    requires ':' !in a
    ensures SplitKeyValue(a + ":" + b) == if Trim(a) == "" then Pair.KeyEmpty else Split(Trim(a), Trim(b))
    ensures SplitKeyValue(a) == ColonExpected
  {
    ColonAfter(a, b);
    var text := a + ":" + b;
    assert text[..|a|] == a && text[|a| + 1..] == b;
    NoColonThere(a);
  }

  lemma {:induction false} NoColonThere(a: string)
    requires ':' !in a
    ensures FirstColon(a) == |a|
  {
    if a != "" { NoColonThere(a[1..]); }
  }

  // The indent is the number of blanks a line begins with.
  lemma IndentExact(n: nat, text: string)
    requires text != "" ==> text[0] != ' '
    ensures Indent(Spaces(n) + text) == n
  {
    if text == "" {
      assert Spaces(n) + text == Spaces(n);
      StripAll(Spaces(n), IsBlank);
    } else {
      StripBlank(n, text);
    }
  }

  // The older switch changes the number of renewals as little as it can: there are some exactly if
  // they are allowed.
  lemma RenewalsAllowed(r: Runtime, allowed: bool)
    requires r.maxRenew >= 0
    ensures
      var s := AllowRenewals(r, allowed);
      && s == r.(maxRenew := s.maxRenew) && s.maxRenew >= 0 && (s.maxRenew > 0 <==> allowed)
      && forall m: nat | m > 0 <==> allowed :: Distance(s.maxRenew, r.maxRenew) <= Distance(m, r.maxRenew)
  {
  }

  function Distance(a: int, b: int): nat { if a < b then b - a else a - b }

  // ---- Lines ----------------------------------------------------------------------------------

  // A line that does not fit the scanner's buffer is reported, and none after it is delivered.
  lemma LongLineReported(lines: seq<string>, long: string, rest: string)
    requires forall l | l in lines :: Clean(l) && |l| <= LINE_MAX
    requires '\n' !in long && |long| > LINE_MAX && (rest == "" || rest[0] == '\n')
    ensures Scanned(Text(lines) + (long + rest)) == Scan(lines, true)
  {
    LongLine(long, rest);
    LinesThen(lines, long + rest);
    assert lines + [] == lines;
  }

  lemma {:induction false} LongLine(long: string, rest: string)
    requires '\n' !in long && |long| > LINE_MAX && (rest == "" || rest[0] == '\n')
    ensures Scanned(long + rest) == Scan([], true)
  {
    EndOfLine(long, rest);
  }

  lemma {:induction false} EndOfLine(line: string, rest: string)
    requires '\n' !in line && (rest == "" || rest[0] == '\n')
    ensures LineEnd(line + rest) == |line|
  {
    if line == "" {
      assert line + rest == rest;
    } else {
      assert (line + rest)[1..] == line[1..] + rest;
      EndOfLine(line[1..], rest);
    }
  }

  lemma {:induction false} LinesThen(lines: seq<string>, rest: string)
    requires forall l | l in lines :: Clean(l) && |l| <= LINE_MAX
    ensures Scanned(Text(lines) + rest) == Scan(lines + Scanned(rest).lines, Scanned(rest).tooLong)
    decreases |lines|
  {
    if lines == [] {
      assert Text(lines) + rest == rest && lines + Scanned(rest).lines == Scanned(rest).lines;
    } else {
      LinesThen(lines[1..], rest);
      FirstLine(lines, rest);
      LineScanned(lines[0], Text(lines[1..]) + rest);
      FirstOf(lines, Scanned(rest).lines);
    }
  }

  lemma FirstLine(lines: seq<string>, rest: string)
    requires lines != []
    ensures Text(lines) + rest == lines[0] + "\n" + (Text(lines[1..]) + rest)
  {
  }

  lemma FirstOf(lines: seq<string>, more: seq<string>)
    requires lines != []
    ensures lines + more == [lines[0]] + (lines[1..] + more)
  {
  }

  // The last line needs no newline, and a carriage return before the newline is dropped.
  lemma LastLine(line: string)
    requires line != "" && Clean(line) && |line| < LINE_MAX
    ensures Scanned(line) == Scan([line], false)
    ensures Scanned(line + "\r\n") == Scan([line], false)
  {
    EndOfLine(line, "");
    assert line + "" == line;
    EndOfLine(line + "\r", "\n");
    var text := line + "\r" + "\n";
    assert line + "\r\n" == text;
    assert text[..|line| + 1] == line + "\r" && text[|line| + 2..] == "";
    assert (line + "\r")[..|line|] == line;
    assert Scanned("") == Scan([], false);
  }
}

// What normalising makes of a challenge, and why it refuses one.
module NormalLaws {
  import opened Options
  import opened SpecText
  import opened Spec

  // ---- What is accepted -----------------------------------------------------------------------

  // A status that was given stands; without one the older switch decides.
  predicate StatusKept(m: Meta, n: Meta) {
    && n.visible == (n.status == "published")
    && if Trim(m.status) == "" then n.visible == m.visible && n.status in {"published", "draft"}
       else n.status == Lower(Trim(m.status))
  }

  predicate MetaKept(m: Meta, n: Meta) {
    && n.slug == Trim(m.slug) && n.title == Trim(m.title) && n.category == Trim(m.category)
    && n.points == m.points && n.dynamic == m.dynamic
    && (if Trim(m.difficulty) == "" then n.difficulty == "normal" else n.difficulty == Lower(Trim(m.difficulty)))
    && (if m.sortOrder == 0 then n.sortOrder == 10 else n.sortOrder == m.sortOrder)
    && StatusKept(m, n)
  }

  predicate FlagKept(f: Flag, g: Flag) {
    && g.value == Trim(f.value)
    && if Trim(f.kind) == "" then g.kind == "static" else g.kind == Lower(Trim(f.kind))
  }

  predicate AttachmentsKept(s: seq<Attachment>, t: seq<Attachment>) {
    && |s| == |t|
    && forall i | 0 <= i < |s| ::
         t[i].filename == Trim(s[i].filename) && t[i].source == Trim(s[i].source)
         && t[i].contentType == Trim(s[i].contentType)
  }

  predicate LimitsKept(r: Runtime, q: Runtime) {
    && (if r.memory > 0 then q.memory == r.memory else q.memory == 256)
    && (if r.cpu > 0 then q.cpu == r.cpu else q.cpu == 500)
    && q.port == r.port && q.ttl == r.ttl && q.maxRenew == r.maxRenew
    && q.maxActive == r.maxActive && q.cooldown == r.cooldown
  }

  predicate RuntimeKept(r: Runtime, q: Runtime) {
    && q.image == Trim(r.image) && q.mode == "per-user" && q.enabled
    && (if Trim(r.expose) == "" then q.expose == "http" else q.expose == Lower(Trim(r.expose)))
    && q.env == r.env && q.command == r.command
    && LimitsKept(r, q)
  }

  predicate Kept(c: Challenge, d: Challenge) {
    && MetaKept(c.meta, d.meta) && FlagKept(c.flag, d.flag)
    && d.content.description == Trim(c.content.description) && d.content.author == Trim(c.content.author)
    && d.owner == Trim(c.owner) && AttachmentsKept(c.attachments, d.attachments)
    && match c.runtime
       case None => d.runtime == None
       case Some(r) => d.runtime.Some? && RuntimeKept(r, d.runtime.value)
  }

  lemma MetaKeeps(m: Meta)
    ensures NormalMeta(m).Ok? ==> MetaKept(m, NormalMeta(m).value)
  {
    FoldedFixed(m.difficulty);
    LiteralFolded("draft");
    LiteralFolded("published");
    if Folded(m.status) in STATUSES { LiteralFolded(Folded(m.status)); }
  }

  lemma FlagKeeps(f: Flag, compiles: string -> bool)
    ensures NormalFlag(f, compiles).Ok? ==> FlagKept(f, NormalFlag(f, compiles).value)
  {
    FoldedFixed(f.kind);
  }

  lemma {:induction false} AttachmentsKeep(s: seq<Attachment>, i: nat)
    requires i <= |s|
    ensures NormalAttachments(s, i).Ok? ==> AttachmentsKept(s[i..], NormalAttachments(s, i).value)
    decreases |s| - i
  {
    if i < |s| {
      AttachmentsKeep(s, i + 1);
      assert s[i..] == [s[i]] + s[i + 1..];
    }
  }

  lemma RuntimeKeeps(r: Runtime)
    ensures NormalRuntime(r).Ok? ==> RuntimeKept(r, NormalRuntime(r).value)
  {
    FoldedFixed(r.mode);
    FoldedFixed(r.expose);
  }

  // Of an accepted challenge every field is what was given, trimmed or folded, or its default where
  // nothing was given.
  lemma NormalizeKeeps(c: Challenge, compiles: string -> bool)
    ensures Normalize(c, compiles).Ok? ==> Kept(c, Normalize(c, compiles).value)
  {
    if Normalize(c, compiles).Ok? {
      MetaKeeps(c.meta);
      FlagKeeps(c.flag, compiles);
      AttachmentsKeep(c.attachments, 0);
      assert c.attachments[0..] == c.attachments;
      if c.runtime.Some? { RuntimeKeeps(c.runtime.value); }
    }
  }

  // ---- What is refused ------------------------------------------------------------------------

  datatype Defect = Defect(found: bool, failure: Failure)

  // The first defect of a list that was found.
  ghost predicate Reports(defects: seq<Defect>, failure: Option<Failure>) {
    match failure
    case None => forall i | 0 <= i < |defects| :: !defects[i].found
    case Some(e) =>
      exists i :: 0 <= i < |defects| && defects[i] == Defect(true, e) && forall k | 0 <= k < i :: !defects[k].found
  }

  function FailureOf<T>(r: Result<T>): Option<Failure> {
    match r case Ok(_) => None case Err(e) => Some(e)
  }

  function MetaDefects(m: Meta): seq<Defect> {
    [ Defect(m.points <= 0, PointsNotPositive),
      Defect(Trim(m.status) != "" && Lower(Trim(m.status)) !in {"draft", "review", "ready", "published"}, StatusInvalid),
      Defect(Trim(m.slug) == "", SlugMissing),
      Defect(Trim(m.title) == "", TitleMissing),
      Defect(Trim(m.category) == "", CategoryMissing) ]
  }

  // A flag is static unless it says otherwise.
  function FlagDefects(f: Flag, compiles: string -> bool): seq<Defect> {
    var kind := Lower(Trim(f.kind));
    [ Defect(Trim(f.value) == "", FlagMissing),
      Defect(kind !in {"", "static", "case_insensitive", "regex"} || (kind == "regex" && !compiles(Trim(f.value))),
             FlagInvalid) ]
  }

  function AttachmentDefects(s: seq<Attachment>, i: nat): seq<Defect>
    requires i <= |s|
    decreases |s| - i
  {
    if i == |s| then []
    else
      [ Defect(Trim(s[i].filename) == "", FilenameMissing(i)), Defect(Trim(s[i].source) == "", SourceMissing(i)) ]
      + AttachmentDefects(s, i + 1)
  }

  function RuntimeDefects(r: Runtime): seq<Defect> {
    [ Defect(Lower(Trim(r.mode)) !in {"", "per-user"}, ModeUnsupported),
      Defect(Lower(Trim(r.expose)) !in {"", "http", "https", "tcp", "udp"}, ExposeUnsupported),
      Defect(Trim(r.image) == "", ImageMissing),
      Defect(r.port <= 0, PortNotPositive),
      Defect(r.ttl <= 0, TtlNotPositive),
      Defect(r.maxRenew < 0, RenewalsNegative),
      Defect(r.maxActive < 0, CapacityNegative),
      Defect(r.cooldown < 0, CooldownNegative) ]
  }

  function Defects(c: Challenge, compiles: string -> bool): seq<Defect> {
    MetaDefects(c.meta) + (FlagDefects(c.flag, compiles) + (AttachmentDefects(c.attachments, 0) + SectionDefects(c)))
  }

  function SectionDefects(c: Challenge): seq<Defect> {
    match c.runtime
    case None => []
    case Some(r) => [Defect(!c.meta.dynamic, RuntimeNotDynamic)] + RuntimeDefects(r)
  }

  // Of two lists, the second counts where the first has nothing to report.
  lemma ReportsThen(a: seq<Defect>, b: seq<Defect>, first: Option<Failure>, second: Option<Failure>)
    requires Reports(a, first) && Reports(b, second)
    ensures Reports(a + b, if first.Some? then first else second)
  {
    if first.Some? {
      var i :| 0 <= i < |a| && a[i] == Defect(true, first.value) && forall k | 0 <= k < i :: !a[k].found;
      assert (a + b)[i] == a[i] && forall k | 0 <= k < i :: (a + b)[k] == a[k];
    } else if second.Some? {
      var i :| 0 <= i < |b| && b[i] == Defect(true, second.value) && forall k | 0 <= k < i :: !b[k].found;
      assert (a + b)[|a| + i] == b[i];
      assert forall k | 0 <= k < |a| + i :: !(a + b)[k].found;
    }
  }

  lemma MetaRefused(m: Meta)
    ensures Reports(MetaDefects(m), FailureOf(NormalMeta(m)))
  {
    var ds, r := MetaDefects(m), NormalMeta(m);
    if r.Err? {
      var i := match r.failure
        case PointsNotPositive => 0 case StatusInvalid => 1 case SlugMissing => 2 case TitleMissing => 3 case _ => 4;
      assert ds[i] == Defect(true, r.failure);
    }
  }

  lemma FlagRefused(f: Flag, compiles: string -> bool)
    ensures Reports(FlagDefects(f, compiles), FailureOf(NormalFlag(f, compiles)))
  {
    var ds, r := FlagDefects(f, compiles), NormalFlag(f, compiles);
    TrimFixed(f.value);
    TrimFixed(Trim(f.value));
    if r.Err? {
      assert ds[if r.failure == FlagMissing then 0 else 1] == Defect(true, r.failure);
    }
  }

  lemma {:induction false} AttachmentsRefused(s: seq<Attachment>, i: nat)
    requires i <= |s|
    ensures Reports(AttachmentDefects(s, i), FailureOf(NormalAttachments(s, i)))
    decreases |s| - i
  {
    if i < |s| {
      AttachmentsRefused(s, i + 1);
      var here := [Defect(Trim(s[i].filename) == "", FilenameMissing(i)), Defect(Trim(s[i].source) == "", SourceMissing(i))];
      var first := if here[0].found then Some(here[0].failure) else if here[1].found then Some(here[1].failure) else None;
      ReportsThen(here, AttachmentDefects(s, i + 1), first, FailureOf(NormalAttachments(s, i + 1)));
    }
  }

  lemma RuntimeRefused(r: Runtime)
    ensures Reports(RuntimeDefects(r), FailureOf(NormalRuntime(r)))
  {
    var ds, n := RuntimeDefects(r), NormalRuntime(r);
    if n.Err? {
      var i := match n.failure
        case ModeUnsupported => 0 case ExposeUnsupported => 1 case ImageMissing => 2 case PortNotPositive => 3
        case TtlNotPositive => 4 case RenewalsNegative => 5 case CapacityNegative => 6 case _ => 7;
      assert ds[i] == Defect(true, n.failure);
    }
  }

  lemma SectionRefused(c: Challenge) returns (r: Option<Failure>)
    ensures Reports(SectionDefects(c), r)
    ensures r == match c.runtime case None => None
                 case Some(q) => if !c.meta.dynamic then Some(RuntimeNotDynamic) else FailureOf(NormalRuntime(q))
  {
    match c.runtime {
      case None => r := None;
      case Some(q) =>
        RuntimeRefused(q);
        var here := [Defect(!c.meta.dynamic, RuntimeNotDynamic)];
        var first := if c.meta.dynamic then None else Some(RuntimeNotDynamic);
        assert first.Some? ==> here[0] == Defect(true, RuntimeNotDynamic);
        ReportsThen(here, RuntimeDefects(q), first, FailureOf(NormalRuntime(q)));
        r := if first.Some? then first else FailureOf(NormalRuntime(q));
    }
  }

  // A challenge is refused exactly if it has a defect, and for the first one in this order.
  lemma NormalizeRefuses(c: Challenge, compiles: string -> bool)
    ensures Reports(Defects(c, compiles), FailureOf(Normalize(c, compiles)))
  {
    MetaRefused(c.meta);
    FlagRefused(c.flag, compiles);
    AttachmentsRefused(c.attachments, 0);
    var section := SectionRefused(c);
    var meta, flag := FailureOf(NormalMeta(c.meta)), FailureOf(NormalFlag(c.flag, compiles));
    var attachments := FailureOf(NormalAttachments(c.attachments, 0));
    ReportsThen(AttachmentDefects(c.attachments, 0), SectionDefects(c), attachments, section);
    var rest := if attachments.Some? then attachments else section;
    ReportsThen(FlagDefects(c.flag, compiles), AttachmentDefects(c.attachments, 0) + SectionDefects(c), flag, rest);
    rest := if flag.Some? then flag else rest;
    ReportsThen(
      MetaDefects(c.meta), FlagDefects(c.flag, compiles) + (AttachmentDefects(c.attachments, 0) + SectionDefects(c)),
      meta, rest);
  }
}

// Which lines the reader refuses, and how.
module ReaderLaws {
  import opened Options
  import opened SpecText
  import opened Spec

  const KEYS := map[
    "meta" := {"slug", "title", "category", "points", "difficulty", "dynamic", "status", "visible", "sort_order"},
    "flag" := {"type", "value"},
    "content" := {"description", "author"},
    "ownership" := {"author"},
    "runtime" := {"image", "mode", "expose", "container_port", "ttl", "memory_limit_mb", "cpu_limit_millicores",
                  "max_renew_count", "max_active_instances", "user_cooldown", "renew_allowed"}]

  const NUMBERS := {"points", "sort_order", "container_port", "memory_limit_mb", "cpu_limit_millicores",
                    "max_renew_count", "max_active_instances"}

  const SWITCHES := {"dynamic", "visible", "renew_allowed"}

  const TIMES := {"ttl", "user_cooldown"}

  predicate Known(section: string, key: string) { section in KEYS && key in KEYS[section] }

  // A scalar is refused for its section, its key, or a value that is not of the kind its key asks
  // for, and accepted otherwise.
  lemma AssignRefuses(c: Challenge, section: string, key: string, value: string)
    ensures
      var r, v := Assign(c, section, key, value), Scalar(value);
      && (r == Err(SectionUnsupported) <==> section !in KEYS)
      && (r == Err(KeyUnsupported) <==> section in KEYS && key !in KEYS[section])
      && (r == Err(NotNumeric) <==> Known(section, key) && key in NUMBERS && Atoi(v) == None)
      && (r == Err(NotBoolean) <==> Known(section, key) && key in SWITCHES && ParseBool(v) == None)
      && (r == Err(NotDuration) <==> Known(section, key) && key in TIMES && ParseDuration(v) == None)
      && (r.Err? ==> r.failure in {SectionUnsupported, KeyUnsupported, NotNumeric, NotBoolean, NotDuration})
  {
    if section == "meta" {
      MetaRefuses(c.meta, key, Scalar(value));
    } else if section == "runtime" {
      RuntimeRefuses(RuntimeOf(c), key, Scalar(value));
    }
  }

  lemma MetaRefuses(m: Meta, key: string, v: string)
    ensures
      var r := AssignMeta(m, key, v);
      && (r == Err(KeyUnsupported) <==> key !in KEYS["meta"])
      && (r == Err(NotNumeric) <==> key in KEYS["meta"] && key in NUMBERS && Atoi(v) == None)
      && (r == Err(NotBoolean) <==> key in KEYS["meta"] && key in SWITCHES && ParseBool(v) == None)
      && (r.Err? ==> r.failure in {KeyUnsupported, NotNumeric, NotBoolean})
      && (key in KEYS["meta"] ==> key !in TIMES)
  {
  }

  lemma RuntimeRefuses(q: Runtime, key: string, v: string)
    ensures
      var r := AssignRuntime(q, key, v);
      && (r == Err(KeyUnsupported) <==> key !in KEYS["runtime"])
      && (r == Err(NotNumeric) <==> key in KEYS["runtime"] && key in NUMBERS && Atoi(v) == None)
      && (r == Err(NotBoolean) <==> key in KEYS["runtime"] && key in SWITCHES && ParseBool(v) == None)
      && (r == Err(NotDuration) <==> key in KEYS["runtime"] && key in TIMES && ParseDuration(v) == None)
      && (r.Err? ==> r.failure in {KeyUnsupported, NotNumeric, NotBoolean, NotDuration})
  {
  }

  // The layout of a line: its indent is 0, 2 or 4.
  lemma LayoutRefuses(st: Reading, line: string)
    ensures
      var r, text, n := StepLine(st, line), Payload(line), Indent(line);
      && (text == "" ==> r == Ok(st))
      && (text != "" && n % 2 == 1 ==> r == Err(OddIndent))
      && (text != "" && n % 2 == 0 && n > 4 ==> r == Err(TooDeep))
      && (text != "" && n == 0 && !EndsWith(text, ':') ==> r == Err(SectionExpected))
      && (text != "" && n == 0 && EndsWith(text, ':') ==>
            r.Ok? && r.value.section + ":" == text && r.value.nested == Nothing
            && r.value.challenge.runtime.Some? == (st.challenge.runtime.Some? || text == "runtime:"))
  {
    var text := Payload(line);
    if EndsWith(text, ':') { assert text == text[..|text| - 1] + ":"; }
  }

  // A line indented by two opens a block, begins an attachment or sets a key.
  lemma MemberRefuses(st: Reading, text: string)
    requires text != ""
    ensures
      var r := Spec.Member(st, text);
      if st.section == "attachments" && IsItem(text) then
        && (Trim(text[2..]) == "" ==> r.Ok?)
        && (r.Ok? ==> |r.value.challenge.attachments| == |st.challenge.attachments| + 1 && r.value.nested == InAttachment)
      else if EndsWith(text, ':') then
        if st.section == "runtime" && text in {"env:", "command:"}
        then r.Ok? && r.value.nested == (if text == "env:" then Env else Command)
        else r == Err(NestedUnsupported)
      else
        && (r == Err(KeyValueExpected) <==> ':' !in text)
        && (r.Ok? ==> r.value.nested == Nothing)
  {
    FirstColonShape(text);
    if !(st.section == "attachments" && IsItem(text)) && !EndsWith(text, ':') && FirstColon(text) < |text| {
      var p := SplitKeyValue(text);
      if p.Split? { AssignRefuses(st.challenge, st.section, p.key, p.value); }
    }
  }

  // A line indented by four belongs to the block above it.
  lemma DetailRefuses(st: Reading, text: string)
    requires text != ""
    ensures
      var r := Detail(st, text);
      if st.section == "runtime" then
        && (r == Err(NestedUnsupported) <==> st.nested !in {Command, Env})
        && (r == Err(CommandItemExpected) <==> st.nested == Command && !("- " <= text))
        && (r == Err(KeyValueExpected) <==> st.nested == Env && ':' !in text)
      else
        r == Err(NestedMisplaced) <==>
        !(st.section == "attachments" && st.nested == InAttachment && st.challenge.attachments != [])
  {
    FirstColonShape(text);
  }

  // A key that no line sets is an empty text, zero or off; a runtime that was opened is enabled.
  predicate Unset(c: Challenge) {
    && c.meta.slug == "" && c.meta.title == "" && c.meta.category == "" && c.meta.difficulty == "" && c.meta.status == ""
    && c.meta.points == 0 && c.meta.sortOrder == 0 && !c.meta.dynamic && !c.meta.visible
    && c.flag == Flag("", "") && c.content == Content("", "") && c.owner == "" && c.attachments == []
    && c.runtime == None && UnsetRuntime(RuntimeOf(c))
  }

  predicate UnsetRuntime(r: Runtime) {
    && r.image == "" && r.mode == "" && r.expose == "" && r.env == map[] && r.command == []
    && r.port == 0 && r.ttl == 0 && r.memory == 0 && r.cpu == 0
    && r.maxRenew == 0 && r.maxActive == 0 && r.cooldown == 0 && r.enabled
  }

  lemma NothingRead(v: string -> bool)
    ensures ReadLines(START, []) == Ok(START) && Unset(START.challenge)
    ensures Parse(Scan([], false), v) == Err(PointsNotPositive)
  {
  }

  // Reading ends at the first line that is refused, whatever follows.
  lemma FirstRefusalCounts(a: seq<string>, line: string, b: seq<string>, tooLong: bool, v: string -> bool)
    ensures ReadLines(START, a).Ok? && StepLine(ReadLines(START, a).value, line).Err? ==>
              var e := StepLine(ReadLines(START, a).value, line).failure;
              Parse(Scan(a + ([line] + b), tooLong), v) == Err(e)
  {
    ReadConcat(START, a, [line] + b);
    assert ([line] + b)[1..] == b;
  }

  // A text with a line that does not fit is never accepted; if its lines are, that is the failure.
  lemma LongLineRefused(lines: seq<string>, v: string -> bool)
    ensures Parse(Scan(lines, true), v).Err?
    ensures ReadLines(START, lines).Ok? ==> Parse(Scan(lines, true), v) == Err(LineTooLong)
    ensures ReadLines(START, lines).Err? ==> Parse(Scan(lines, true), v) == Err(ReadLines(START, lines).failure)
  {
  }
}
