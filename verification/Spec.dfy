// The challenge specification: what one line of challenge.yaml does to it, and its normal form.

module Spec {
  import opened Options
  import opened Decimal
  import opened SpecText

  datatype Meta = Meta(
    slug: string, title: string, category: string, points: int, difficulty: string,
    dynamic: bool, status: string, visible: bool, sortOrder: int)

  datatype Flag = Flag(kind: string, value: string)

  datatype Content = Content(description: string, author: string)

  // Durations are in whole seconds.
  datatype Runtime = Runtime(
    image: string, mode: string, expose: string, port: int, ttl: int, memory: int, cpu: int,
    maxRenew: int, maxActive: int, cooldown: int,
    env: map<string, string>, command: seq<string>, enabled: bool)

  datatype Attachment = Attachment(filename: string, source: string, contentType: string)

  datatype Challenge = Challenge(
    meta: Meta, flag: Flag, content: Content, owner: string,
    runtime: Option<Runtime>, attachments: seq<Attachment>)

  datatype Failure =
    // reading
    | LineTooLong | OddIndent | SectionExpected | NestedUnsupported | NestedMisplaced | TooDeep
    | KeyValueExpected | KeyEmpty | CommandItemExpected
    | SectionUnsupported | KeyUnsupported | NotNumeric | NotBoolean | NotDuration
    // normalising
    | PointsNotPositive | StatusInvalid | SlugMissing | TitleMissing | CategoryMissing
    | FlagMissing | FlagInvalid | FilenameMissing(at: nat) | SourceMissing(at: nat)
    | RuntimeNotDynamic | ModeUnsupported | ExposeUnsupported | ImageMissing
    | PortNotPositive | TtlNotPositive | RenewalsNegative | CapacityNegative | CooldownNegative

  datatype Result<+T> = Ok(value: T) | Err(failure: Failure)

  const NO_CHALLENGE :=
    Challenge(Meta("", "", "", 0, "", false, "", false, 0), Flag("", ""), Content("", ""), "", None, [])

  const NEW_RUNTIME := Runtime("", "", "", 0, 0, 0, 0, 0, 0, 0, map[], [], true)

  // ---- One scalar -----------------------------------------------------------------------------

  function Numeric(v: string): Result<int> {
    match Atoi(v) case Some(i) => Ok(i) case None => Err(NotNumeric)
  }

  function Boolean(v: string): Result<bool> {
    match ParseBool(v) case Some(b) => Ok(b) case None => Err(NotBoolean)
  }

  function Seconds(v: string): Result<int> {
    match ParseDuration(v) case Some(n) => Ok(n) case None => Err(NotDuration)
  }

  function Then<S, T>(r: Result<S>, f: S -> T): Result<T> {
    match r case Ok(v) => Ok(f(v)) case Err(e) => Err(e)
  }

  function AssignMeta(m: Meta, key: string, v: string): Result<Meta> {
    match key
    case "slug" => Ok(m.(slug := v))
    case "title" => Ok(m.(title := v))
    case "category" => Ok(m.(category := v))
    case "points" => Then(Numeric(v), n => m.(points := n))
    case "difficulty" => Ok(m.(difficulty := v))
    case "dynamic" => Then(Boolean(v), b => m.(dynamic := b))
    case "status" => Ok(m.(status := v))
    case "visible" => Then(Boolean(v), b => m.(visible := b))
    case "sort_order" => Then(Numeric(v), n => m.(sortOrder := n))
    case _ => Err(KeyUnsupported)
  }

  // renew_allowed is the older spelling of max_renew_count.
  function AllowRenewals(r: Runtime, allowed: bool): Runtime {
    if !allowed then r.(maxRenew := 0)
    else if r.maxRenew == 0 then r.(maxRenew := 1)
    else r
  }

  function AssignRuntime(r: Runtime, key: string, v: string): Result<Runtime> {
    match key
    case "image" => Ok(r.(image := v))
    case "mode" => Ok(r.(mode := v))
    case "expose" => Ok(r.(expose := v))
    case "container_port" => Then(Numeric(v), n => r.(port := n))
    case "ttl" => Then(Seconds(v), n => r.(ttl := n))
    case "memory_limit_mb" => Then(Numeric(v), n => r.(memory := n))
    case "cpu_limit_millicores" => Then(Numeric(v), n => r.(cpu := n))
    case "max_renew_count" => Then(Numeric(v), n => r.(maxRenew := n))
    case "max_active_instances" => Then(Numeric(v), n => r.(maxActive := n))
    case "user_cooldown" => Then(Seconds(v), n => r.(cooldown := n))
    case "renew_allowed" => Then(Boolean(v), b => AllowRenewals(r, b))
    case _ => Err(KeyUnsupported)
  }

  function RuntimeOf(c: Challenge): Runtime {
    match c.runtime case Some(r) => r case None => NEW_RUNTIME
  }

  // assignScalar
  function Assign(c: Challenge, section: string, key: string, value: string): Result<Challenge> {
    var v := Scalar(value);
    match section
    case "meta" => Then(AssignMeta(c.meta, key, v), m => c.(meta := m))
    case "flag" =>
      if key == "type" then Ok(c.(flag := c.flag.(kind := v)))
      else if key == "value" then Ok(c.(flag := c.flag.(value := v)))
      else Err(KeyUnsupported)
    case "content" =>
      if key == "description" then Ok(c.(content := c.content.(description := v)))
      else if key == "author" then Ok(c.(content := c.content.(author := v)))
      else Err(KeyUnsupported)
    case "ownership" =>
      if key == "author" then Ok(c.(owner := v)) else Err(KeyUnsupported)
    case "runtime" => Then(AssignRuntime(RuntimeOf(c), key, v), r => c.(runtime := Some(r)))
    case _ => Err(SectionUnsupported)
  }

  // assignAttachmentScalar
  function AssignAttachment(a: Attachment, key: string, value: string): Result<Attachment> {
    var v := Scalar(value);
    match key
    case "filename" => Ok(a.(filename := v))
    case "source" => Ok(a.(source := v))
    case "content_type" => Ok(a.(contentType := v))
    case _ => Err(KeyUnsupported)
  }

  // ---- One line -------------------------------------------------------------------------------

  // What an indented line may continue: an attachment is the last one of the list.
  datatype Nested = Nothing | Env | Command | InAttachment

  datatype Reading = Reading(section: string, nested: Nested, challenge: Challenge)

  const START := Reading("", Nothing, NO_CHALLENGE)

  function Indent(line: string): nat {
    StripLeftShape(line, IsBlank);
    |line| - |StripLeft(line, IsBlank)|
  }

  predicate EndsWith(s: string, c: char) { s != "" && s[|s| - 1] == c }

  predicate IsItem(s: string) { "- " <= s }

  // The text of a line without comment and surrounding space.
  function Payload(line: string): string { Trim(WithoutComment(line)) }

  function StepLine(st: Reading, line: string): Result<Reading> {
    var text := Payload(line);
    if text == "" then Ok(st)
    else if Indent(line) % 2 != 0 then Err(OddIndent)
    else if Indent(line) == 0 then Header(st, text)
    else if Indent(line) == 2 then Member(st, text)
    else if Indent(line) == 4 then Detail(st, text)
    else Err(TooDeep)
  }

  function WithRuntime(c: Challenge): Challenge {
    c.(runtime := Some(RuntimeOf(c)))
  }

  function Header(st: Reading, text: string): Result<Reading>
    requires text != ""
  {
    if !EndsWith(text, ':') then Err(SectionExpected)
    else
      var section := text[..|text| - 1];
      Ok(Reading(section, Nothing, if section == "runtime" then WithRuntime(st.challenge) else st.challenge))
  }

  function Member(st: Reading, text: string): Result<Reading>
    requires text != ""
  {
    var c := st.challenge;
    if st.section == "attachments" && IsItem(text) then
      var empty := Attachment("", "", "");
      var content := Trim(text[2..]);
      var added := Reading(st.section, InAttachment, c.(attachments := c.attachments + [empty]));
      if content == "" then Ok(added) else LastField(added, content)
    else if EndsWith(text, ':') then
      if st.section == "runtime" && text == "env:" then Ok(Reading(st.section, Env, WithRuntime(c)))
      else if st.section == "runtime" && text == "command:" then Ok(Reading(st.section, Command, WithRuntime(c)))
      else Err(NestedUnsupported)
    else
      match SplitKeyValue(text)
      case ColonExpected => Err(KeyValueExpected)
      case KeyEmpty => Err(Failure.KeyEmpty)
      case Split(key, value) => Then(Assign(c, st.section, key, value), d => Reading(st.section, Nothing, d))
  }

  function AttachmentField(a: Attachment, content: string): Result<Attachment> {
    match SplitKeyValue(content)
    case ColonExpected => Err(KeyValueExpected)
    case KeyEmpty => Err(Failure.KeyEmpty)
    case Split(key, value) => AssignAttachment(a, key, value)
  }

  // A key and value for the attachment at the end of the list.
  function LastField(st: Reading, content: string): Result<Reading>
    requires st.challenge.attachments != []
  {
    var c := st.challenge;
    var last := |c.attachments| - 1;
    match AttachmentField(c.attachments[last], content)
    case Ok(a) => Ok(st.(challenge := c.(attachments := c.attachments[last := a])))
    case Err(e) => Err(e)
  }

  function Detail(st: Reading, text: string): Result<Reading>
    requires text != ""
  {
    var c := st.challenge;
    if st.section == "runtime" then
      var r := RuntimeOf(c);
      match st.nested
      case Command =>
        if !IsItem(text) then Err(CommandItemExpected)
        else Ok(st.(challenge := c.(runtime := Some(r.(command := r.command + [Trim(text[2..])])))))
      case Env => (
        match SplitKeyValue(text)
        case ColonExpected => Err(KeyValueExpected)
        case KeyEmpty => Err(Failure.KeyEmpty)
        case Split(key, value) =>
          Ok(st.(challenge := c.(runtime := Some(r.(env := r.env[key := Scalar(value)]))))))
      case _ => Err(NestedUnsupported)
    else if st.section == "attachments" && st.nested == InAttachment && c.attachments != [] then
      LastField(st, text)
    else Err(NestedMisplaced)
  }

  // A runtime section being read exists.
  predicate Opened(st: Reading) { st.section == "runtime" ==> st.challenge.runtime.Some? }

  lemma OpenedStep(st: Reading, line: string)
    requires Opened(st)
    ensures StepLine(st, line).Ok? ==> Opened(StepLine(st, line).value)
  {
  }

  // ---- A whole text ---------------------------------------------------------------------------

  function ReadLines(st: Reading, lines: seq<string>): Result<Reading>
    decreases |lines|
  {
    if lines == [] then Ok(st)
    else match StepLine(st, lines[0]) case Ok(next) => ReadLines(next, lines[1..]) case Err(e) => Err(e)
  }

  lemma {:induction false} ReadConcat(st: Reading, a: seq<string>, b: seq<string>)
    ensures ReadLines(st, a + b) ==
            match ReadLines(st, a) case Ok(mid) => ReadLines(mid, b) case Err(e) => Err(e)
    decreases |a|
  {
    if a == [] {
      assert a + b == b;
    } else {
      assert (a + b)[0] == a[0] && (a + b)[1..] == a[1..] + b;
      match StepLine(st, a[0]) {
        case Ok(next) => ReadConcat(next, a[1..], b);
        case Err(_) =>
      }
    }
  }

  // The lines a bufio.Scanner delivers: up to the first that does not fit its buffer.
  datatype Scan = Scan(lines: seq<string>, tooLong: bool)

  const LINE_MAX := 65535

  function LineEnd(text: string): nat {
    if text == "" || text[0] == '\n' then 0 else 1 + LineEnd(text[1..])
  }

  lemma {:induction false} LineEndShape(text: string)
    ensures LineEnd(text) <= |text| && (LineEnd(text) < |text| ==> text[LineEnd(text)] == '\n')
    ensures forall i | 0 <= i < LineEnd(text) :: text[i] != '\n'
  {
    if text != "" && text[0] != '\n' {
      LineEndShape(text[1..]);
    }
  }

  function DropReturn(line: string): string {
    if EndsWith(line, '\r') then line[..|line| - 1] else line
  }

  function Scanned(text: string): Scan
    decreases |text|
  {
    LineEndShape(text);
    var n := LineEnd(text);
    if text == "" then Scan([], false)
    else if n > LINE_MAX then Scan([], true)
    else
      var rest := Scanned(if n == |text| then "" else text[n + 1..]);
      Scan([DropReturn(text[..n])] + rest.lines, rest.tooLong)
  }

  // ---- Normal form ----------------------------------------------------------------------------

  const STATUSES := {"draft", "review", "ready", "published"}

  // challengecfg.NormalizeInputStatus
  function InputStatus(status: string, visible: bool): Option<string> {
    if Trim(status) == "" then Some(if visible then "published" else "draft")
    else if Lower(Trim(status)) in STATUSES then Some(Lower(Trim(status)))
    else None
  }

  // challengecfg.IsPublished
  predicate IsPublished(status: string) { Lower(Trim(status)) == "published" }

  function OrElse(s: string, otherwise: string): string { if s == "" then otherwise else s }

  function Folded(s: string): string { Lower(Trim(s)) }

  // game.ValidateFlagTypeConfig; compiles says which patterns are regular expressions.
  function FlagType(kind: string, value: string, compiles: string -> bool): Option<string> {
    var k := OrElse(Folded(kind), "static");
    if k == "static" || k == "case_insensitive" then Some(k)
    else if k == "regex" && compiles(Trim(value)) then Some(k)
    else None
  }

  function NormalMeta(m: Meta): Result<Meta> {
    if m.points <= 0 then Err(PointsNotPositive)
    else
      match InputStatus(m.status, m.visible)
      case None => Err(StatusInvalid)
      case Some(status) =>
        if Trim(m.slug) == "" then Err(SlugMissing)
        else if Trim(m.title) == "" then Err(TitleMissing)
        else if Trim(m.category) == "" then Err(CategoryMissing)
        else Ok(Meta(Trim(m.slug), Trim(m.title), Trim(m.category), m.points,
                     OrElse(Folded(m.difficulty), "normal"), m.dynamic, status, IsPublished(status),
                     if m.sortOrder == 0 then 10 else m.sortOrder))
  }

  function NormalFlag(f: Flag, compiles: string -> bool): Result<Flag> {
    if Trim(f.value) == "" then Err(FlagMissing)
    else match FlagType(f.kind, Trim(f.value), compiles)
      case None => Err(FlagInvalid)
      case Some(kind) => Ok(Flag(kind, Trim(f.value)))
  }

  function TrimmedAttachment(a: Attachment): Attachment {
    Attachment(Trim(a.filename), Trim(a.source), Trim(a.contentType))
  }

  // Attachments from index i on; the first defect is reported.
  function NormalAttachments(s: seq<Attachment>, i: nat): Result<seq<Attachment>>
    requires i <= |s|
    decreases |s| - i
  {
    if i == |s| then Ok([])
    else if Trim(s[i].filename) == "" then Err(FilenameMissing(i))
    else if Trim(s[i].source) == "" then Err(SourceMissing(i))
    else Prefixed([TrimmedAttachment(s[i])], NormalAttachments(s, i + 1))
  }

  function Prefixed(first: seq<Attachment>, r: Result<seq<Attachment>>): Result<seq<Attachment>> {
    match r case Ok(rest) => Ok(first + rest) case Err(e) => Err(e)
  }

  const PROTOCOLS := {"http", "https", "tcp", "udp"}

  function NormalRuntime(r: Runtime): Result<Runtime> {
    var mode := OrElse(Folded(r.mode), "per-user");
    var expose := OrElse(Folded(r.expose), "http");
    if mode != "per-user" then Err(ModeUnsupported)
    else if expose !in PROTOCOLS then Err(ExposeUnsupported)
    else if Trim(r.image) == "" then Err(ImageMissing)
    else if r.port <= 0 then Err(PortNotPositive)
    else if r.ttl <= 0 then Err(TtlNotPositive)
    else if r.maxRenew < 0 then Err(RenewalsNegative)
    else if r.maxActive < 0 then Err(CapacityNegative)
    else if r.cooldown < 0 then Err(CooldownNegative)
    else Ok(r.(image := Trim(r.image), mode := mode, expose := expose,
               memory := if r.memory <= 0 then 256 else r.memory,
               cpu := if r.cpu <= 0 then 500 else r.cpu, enabled := true))
  }

  // NormalizeSpec
  function Normalize(c: Challenge, compiles: string -> bool): Result<Challenge> {
    match NormalMeta(c.meta)
    case Err(e) => Err(e)
    case Ok(meta) =>
      match NormalFlag(c.flag, compiles)
      case Err(e) => Err(e)
      case Ok(flag) =>
        match NormalAttachments(c.attachments, 0)
        case Err(e) => Err(e)
        case Ok(attachments) =>
          var d := Challenge(meta, flag, Content(Trim(c.content.description), Trim(c.content.author)),
                             Trim(c.owner), None, attachments);
          match c.runtime
          case None => Ok(d)
          case Some(r) =>
            if !meta.dynamic then Err(RuntimeNotDynamic)
            else Then(NormalRuntime(r), n => d.(runtime := Some(n)))
  }

  // parseSpec
  function Parse(s: Scan, compiles: string -> bool): Result<Challenge> {
    match ReadLines(START, s.lines)
    case Err(e) => Err(e)
    case Ok(st) => if s.tooLong then Err(LineTooLong) else Normalize(st.challenge, compiles)
  }

  // ---- Facts about the normal form ------------------------------------------------------------

  predicate Trimmed(s: string) { Tight(s, IsSpace) }

  predicate LowerCase(s: string) { forall i | 0 <= i < |s| :: !('A' <= s[i] <= 'Z') }

  predicate MetaNormal(m: Meta) {
    && m.slug != "" && m.title != "" && m.category != ""
    && Trimmed(m.slug) && Trimmed(m.title) && Trimmed(m.category)
    && m.points > 0 && m.sortOrder != 0
    && m.difficulty != "" && Trimmed(m.difficulty) && LowerCase(m.difficulty)
    && m.status in STATUSES && (m.visible <==> m.status == "published")
  }

  predicate FlagNormal(f: Flag, compiles: string -> bool) {
    && f.value != "" && Trimmed(f.value)
    && (f.kind in {"static", "case_insensitive"} || (f.kind == "regex" && compiles(f.value)))
  }

  predicate AttachmentNormal(a: Attachment) {
    && a.filename != "" && a.source != ""
    && Trimmed(a.filename) && Trimmed(a.source) && Trimmed(a.contentType)
  }

  predicate RuntimeNormal(r: Runtime) {
    && r.image != "" && Trimmed(r.image) && r.mode == "per-user" && r.expose in PROTOCOLS
    && r.port > 0 && r.ttl > 0 && r.memory > 0 && r.cpu > 0
    && r.maxRenew >= 0 && r.maxActive >= 0 && r.cooldown >= 0 && r.enabled
  }

  predicate Normal(c: Challenge, compiles: string -> bool) {
    && MetaNormal(c.meta) && FlagNormal(c.flag, compiles)
    && Trimmed(c.content.description) && Trimmed(c.content.author) && Trimmed(c.owner)
    && (forall a | a in c.attachments :: AttachmentNormal(a))
    && (c.runtime.Some? ==> c.meta.dynamic && RuntimeNormal(c.runtime.value))
  }

  lemma TrimFixed(s: string)
    ensures Trimmed(Trim(s)) && (Trim(s) == s <==> Trimmed(s))
  {
    StripTight(s, IsSpace);
    if Trimmed(s) { TightKept(s, IsSpace); }
  }

  lemma FoldedFixed(s: string)
    ensures Trimmed(Folded(s)) && LowerCase(Folded(s)) && (Folded(s) == "" <==> Trim(s) == "")
    ensures Folded(s) == s <==> Trimmed(s) && LowerCase(s)
  {
    TrimFixed(s);
    LowerTight(Trim(s));
    LowerFixed(Trim(s));
    LowerFixed(s);
  }

  lemma LowerFixed(s: string)
    ensures LowerCase(Lower(s)) && (Lower(s) == s <==> LowerCase(s))
  {
    if Lower(s) == s {
      forall i | 0 <= i < |s| ensures !('A' <= s[i] <= 'Z') {
        assert Lower(s)[i] == LowerChar(s[i]);
      }
    }
  }

  // The literals of the source are in folded form.
  lemma LiteralFolded(s: string)
    requires s in STATUSES + PROTOCOLS + {"normal", "per-user", "static", "case_insensitive", "regex"}
    ensures s != "" && Folded(s) == s && Trim(s) == s
  {
    assert s != "" && forall i | 0 <= i < |s| :: !IsSpace(s[i]) && !('A' <= s[i] <= 'Z') by {
      LiteralChars(s);
    }
    FoldedFixed(s);
    TrimFixed(s);
  }

  lemma LiteralChars(s: string)
    requires s in STATUSES + PROTOCOLS + {"normal", "per-user", "static", "case_insensitive", "regex"}
    ensures s != "" && forall i | 0 <= i < |s| :: 'a' <= s[i] <= 'z' || s[i] == '-' || s[i] == '_'
  {
  }

  lemma MetaFixed(m: Meta)
    ensures NormalMeta(m).Ok? ==> MetaNormal(NormalMeta(m).value)
    ensures NormalMeta(m) == Ok(m) <==> MetaNormal(m)
  {
    TrimFixed(m.slug);
    TrimFixed(m.title);
    TrimFixed(m.category);
    TrimFixed(m.status);
    FoldedFixed(m.difficulty);
    LiteralFolded("normal");
    LiteralFolded("draft");
    LiteralFolded("published");
    if m.status in STATUSES { LiteralFolded(m.status); }
    if Folded(m.status) in STATUSES { LiteralFolded(Folded(m.status)); }
  }

  lemma FlagFixed(f: Flag, compiles: string -> bool)
    ensures NormalFlag(f, compiles).Ok? ==> FlagNormal(NormalFlag(f, compiles).value, compiles)
    ensures NormalFlag(f, compiles) == Ok(f) <==> FlagNormal(f, compiles)
  {
    TrimFixed(f.value);
    TrimFixed(Trim(f.value));
    LiteralFolded("static");
    if f.kind in {"static", "case_insensitive", "regex"} { LiteralFolded(f.kind); }
  }

  lemma {:induction false} AttachmentsFixed(s: seq<Attachment>, i: nat)
    requires i <= |s|
    ensures
      var r := NormalAttachments(s, i);
      && (r.Ok? ==> forall a | a in r.value :: AttachmentNormal(a))
      && (r == Ok(s[i..]) <==> forall a | a in s[i..] :: AttachmentNormal(a))
    decreases |s| - i
  {
    if i < |s| {
      AttachmentsFixed(s, i + 1);
      TrimFixed(s[i].filename);
      TrimFixed(s[i].source);
      TrimFixed(s[i].contentType);
      assert s[i..] == [s[i]] + s[i + 1..];
      assert (forall a | a in s[i..] :: AttachmentNormal(a)) <==>
             AttachmentNormal(s[i]) && (forall a | a in s[i + 1..] :: AttachmentNormal(a)) by {
        AllOfCons(s[i], s[i + 1..]);
      }
      if NormalAttachments(s, i) == Ok(s[i..]) {
        var rest := NormalAttachments(s, i + 1).value;
        assert rest == ([TrimmedAttachment(s[i])] + rest)[1..] == s[i + 1..];
        assert ([TrimmedAttachment(s[i])] + rest)[0] == s[i];
      }
      if AttachmentNormal(s[i]) && NormalAttachments(s, i + 1) == Ok(s[i + 1..]) {
        assert TrimmedAttachment(s[i]) == s[i];
      }
    } else {
      assert s[i..] == [];
    }
  }

  lemma AllOfCons(first: Attachment, rest: seq<Attachment>)
    ensures (forall a | a in [first] + rest :: AttachmentNormal(a)) <==>
            AttachmentNormal(first) && (forall a | a in rest :: AttachmentNormal(a))
  {
    assert first in [first] + rest;
    assert forall a | a in rest :: a in [first] + rest;
  }

  lemma RuntimeAccepted(r: Runtime)
    ensures NormalRuntime(r).Ok? ==> RuntimeNormal(NormalRuntime(r).value)
  {
    TrimFixed(r.image);
  }

  lemma RuntimeFixed(r: Runtime)
    ensures NormalRuntime(r) == Ok(r) <==> RuntimeNormal(r)
  {
    TrimFixed(r.image);
    RuntimeAccepted(r);
    if RuntimeNormal(r) {
      LiteralFolded("per-user");
      LiteralFolded(r.expose);
    }
  }

  // An accepted specification is in normal form, and the normal forms are exactly the
  // specifications that normalising leaves alone.
  lemma NormalizeFixed(c: Challenge, compiles: string -> bool)
    ensures Normalize(c, compiles).Ok? ==> Normal(Normalize(c, compiles).value, compiles)
    ensures Normalize(c, compiles) == Ok(c) <==> Normal(c, compiles)
  {
    MetaFixed(c.meta);
    FlagFixed(c.flag, compiles);
    AttachmentsFixed(c.attachments, 0);
    assert c.attachments[0..] == c.attachments;
    TrimFixed(c.content.description);
    TrimFixed(c.content.author);
    TrimFixed(c.owner);
    if c.runtime.Some? {
      RuntimeAccepted(c.runtime.value);
      RuntimeFixed(c.runtime.value);
    }
  }

  lemma NormalizeIdempotent(c: Challenge, compiles: string -> bool)
    ensures
      var r := Normalize(c, compiles);
      r.Ok? ==> Normalize(r.value, compiles) == r
  {
    NormalizeFixed(c, compiles);
    match Normalize(c, compiles) {
      case Ok(d) => NormalizeFixed(d, compiles);
      case Err(_) =>
    }
  }
}
