// A canonical text of a challenge, and the proof that the importer reads it back.

module SpecPrint {
  import opened Options
  import opened Decimal
  import opened SpecText
  import opened Spec

  // ---- Quoted scalars -------------------------------------------------------------------------

  function Quoted(v: string): string { "\"" + v + "\"" }

  // No newline, no quote at an end that reading would strip, no '#' the quotes leave open.
  predicate Printable(v: string) {
    && '\n' !in v && Tight(v, IsDouble) && Tight(v, IsSingle)
    && WithoutComment(Quoted(v)) == Quoted(v)
  }

  lemma {:induction false} InsideDouble(v: string)
    requires '"' !in v
    ensures Uncommented(Quotes(false, true), v + "\"") == v + "\""
    decreases |v|
  {
    if v == "" {
      assert v + "\"" == "\"";
      assert "\""[1..] == "";
    } else {
      assert (v + "\"")[1..] == v[1..] + "\"";
      InsideDouble(v[1..]);
    }
  }

  // Any text without newline, double quote, or single quote at an end is printable.
  lemma PlainPrintable(v: string)
    requires '\n' !in v && '"' !in v && Tight(v, IsSingle)
    ensures Printable(v)
  {
    InsideDouble(v);
    assert Quoted(v)[1..] == v + "\"";
  }

  lemma IntPrintable(i: int)
    ensures Printable(Itoa(i))
  {
    var text := Itoa(i);
    forall k | 0 <= k < |text| ensures IsDigit(text[k]) || text[k] == '-' {
      ItoaChars(i, k);
    }
    PlainPrintable(Itoa(i));
  }

  lemma SecondsPrintable(n: nat)
    ensures Printable(DurationText(n))
  {
    DigitsRead(n);
    PlainPrintable(DurationText(n));
  }

  // Between quotes a value survives stripping exactly when it has no quote to strip of its own.
  lemma QuotedExact(v: string)
    ensures Scalar(Quoted(v)) == v <==> Tight(v, IsDouble) && Tight(v, IsSingle)
  {
    TightKept(Quoted(v), IsSpace);
    var inner := Strip(v, IsDouble);
    StripQuoted(v);
    StripTight(v, IsDouble);
    StripTight(inner, IsSingle);
    StripShorter(v, IsDouble);
    StripShorter(inner, IsSingle);
    if Tight(v, IsDouble) { TightKept(v, IsDouble); }
    if Tight(v, IsSingle) { TightKept(v, IsSingle); }
  }

  lemma StripShorter(s: string, p: char -> bool)
    ensures |Strip(s, p)| <= |s| && (|Strip(s, p)| == |s| ==> Strip(s, p) == s)
  {
    StripLeftShape(s, p);
    StripRightShape(StripLeft(s, p), p);
  }

  lemma StripQuoted(v: string)
    ensures Strip(Quoted(v), IsDouble) == Strip(v, IsDouble)
  {
    StripLeftShape(v, IsDouble);
    var tail := StripLeft(v, IsDouble);
    if tail == "" {
      StripAll(Quoted(v), IsDouble);
      StripAll(v, IsDouble);
    } else {
      StripRightShape(tail, IsDouble);
      NonEmptyCore(tail, IsDouble);
      var core := StripRight(tail, IsDouble);
      var left, right := v[..|v| - |tail|], tail[|core|..];
      assert v == left + core + right;
      WithinQuotes(left, core, right);
    }
  }

  lemma WithinQuotes(left: string, core: string, right: string)
    requires Tight(core, IsDouble) && core != ""
    requires (forall i | 0 <= i < |left| :: left[i] == '"') && (forall i | 0 <= i < |right| :: right[i] == '"')
    ensures Strip(Quoted(left + core + right), IsDouble) == core
  {
    var l, r := "\"" + left, right + "\"";
    assert Quoted(left + core + right) == l + core + r;
    StripCore(l, core, r, IsDouble);
  }

  lemma NonEmptyCore(s: string, p: char -> bool)
    requires s != "" && !p(s[0])
    ensures StripRight(s, p) != ""
  {
    StripRightShape(s, p);
  }

  // ---- Lines ----------------------------------------------------------------------------------

  function Spaces(n: nat): string { seq(n, _ => ' ') }

  // Text that can stand before the colon.
  predicate CleanKey(key: string) {
    key != "" && Trimmed(key) && forall i | 0 <= i < |key| :: key[i] !in {'#', '"', '\'', ':', '\n'}
  }

  function Field(key: string, v: string): string {
    key + ":" + (" " + Quoted(v))
  }

  // A line the scanner returns as it is.
  predicate Clean(line: string) { '\n' !in line && !EndsWith(line, '\r') }

  lemma {:induction false} NoQuotes(a: string)
    requires forall i | 0 <= i < |a| :: a[i] !in {'#', '"', '\''}
    ensures Uncommented(UNQUOTED, a) == a && QuotesAfter(UNQUOTED, a) == UNQUOTED
  {
    if a != "" { NoQuotes(a[1..]); }
  }

  // Text that can stand alone on a line.
  predicate Bare(text: string) {
    text != "" && Trimmed(text) && '\n' !in text && WithoutComment(text) == text
  }

  // Reading a padded line finds the padding and the text.
  lemma PaddedLine(pad: nat, text: string)
    requires Bare(text)
    ensures
      var line := Spaces(pad) + text;
      Payload(line) == text && Indent(line) == pad && Clean(line)
  {
    var line := Spaces(pad) + text;
    NoQuotes(Spaces(pad));
    UncommentedConcat(UNQUOTED, Spaces(pad), text);
    assert line == Spaces(pad) + text + "";
    StripCore(Spaces(pad), text, "", IsSpace);
    StripBlank(pad, text);
  }

  // A line indented by two is a member of its section, one indented by four a detail.
  lemma PaddedStep(st: Reading, text: string)
    requires Bare(text)
    ensures StepLine(st, Spaces(2) + text) == Spec.Member(st, text)
    ensures StepLine(st, Spaces(4) + text) == Detail(st, text)
    ensures Clean(Spaces(2) + text) && Clean(Spaces(4) + text)
  {
    PaddedLine(2, text);
    PaddedLine(4, text);
  }

  lemma {:induction false} StripBlank(pad: nat, text: string)
    requires text != "" && text[0] != ' '
    ensures StripLeft(Spaces(pad) + text, IsBlank) == text
  {
    if pad == 0 {
      assert Spaces(pad) + text == text;
    } else {
      assert (Spaces(pad) + text)[1..] == Spaces(pad - 1) + text;
      StripBlank(pad - 1, text);
    }
  }

  lemma FieldUncommented(key: string, v: string)
    requires CleanKey(key) && Printable(v)
    ensures WithoutComment((key + ":" + " ") + Quoted(v)) == (key + ":" + " ") + Quoted(v)
  {
    NoQuotes(key + ":" + " ");
    UncommentedConcat(UNQUOTED, key + ":" + " ", Quoted(v));
  }

  lemma FieldText(key: string, v: string)
    requires CleanKey(key) && Printable(v)
    ensures Bare(Field(key, v)) && !EndsWith(Field(key, v), ':')
  {
    FieldUncommented(key, v);
    FieldEnds(key, v);
  }

  lemma FieldEnds(key: string, v: string)
    requires CleanKey(key)
    ensures
      var text := Field(key, v);
      text == (key + ":" + " ") + Quoted(v) && text[0] == key[0] && text[|text| - 1] == '"'
  {
  }

  lemma SplitAtColon(key: string, rest: string)
    requires CleanKey(key)
    ensures SplitKeyValue(key + ":" + rest) == Split(key, Trim(rest))
  {
    var text := key + ":" + rest;
    ColonAfter(key, rest);
    TightKept(key, IsSpace);
    assert text[..|key|] == key;
    assert text[|key| + 1..] == rest;
  }

  lemma SpaceThenQuoted(v: string)
    ensures Trim(" " + Quoted(v)) == Quoted(v)
  {
    var text := Quoted(v);
    assert text[0] == '"' && text[|text| - 1] == '"';
    assert " " + text == " " + text + "";
    StripCore(" ", text, "", IsSpace);
  }

  lemma FieldSplit(key: string, v: string)
    requires CleanKey(key) && Printable(v)
    ensures SplitKeyValue(Field(key, v)) == Split(key, Quoted(v)) && Scalar(Quoted(v)) == v
  {
    var after := " " + Quoted(v);
    SplitAtColon(key, after);
    SpaceThenQuoted(v);
    QuotedExact(v);
  }

  lemma {:induction false} ColonAfter(key: string, rest: string)
    requires forall i | 0 <= i < |key| :: key[i] != ':'
    ensures FirstColon(key + ":" + rest) == |key|
  {
    if key == "" {
      assert key + ":" + rest == ":" + rest;
    } else {
      assert (key + ":" + rest)[1..] == key[1..] + ":" + rest;
      ColonAfter(key[1..], rest);
    }
  }

  // ---- Reading a printed line -----------------------------------------------------------------

  // Reading these lines leads from one state to another, and the scanner delivers them unchanged.
  // The quantifier keeps the solver from unfolding the reading of a long text.
  ghost predicate Leads(st: Reading, lines: seq<string>, next: Reading) {
    forall k: nat :: LeadsAt(k, st, lines, next)
  }

  ghost predicate LeadsAt(k: nat, st: Reading, lines: seq<string>, next: Reading) {
    ReadLines(st, lines) == Ok(next) && forall l | l in lines :: Clean(l)
  }

  lemma LeadsMeans(st: Reading, lines: seq<string>, next: Reading)
    ensures Leads(st, lines, next) <==> ReadLines(st, lines) == Ok(next) && forall l | l in lines :: Clean(l)
  {
    assert LeadsAt(0, st, lines, next) <==> ReadLines(st, lines) == Ok(next) && forall l | l in lines :: Clean(l);
  }

  lemma LeadsNowhere(st: Reading)
    ensures Leads(st, [], st)
  {
    LeadsMeans(st, [], st);
  }

  lemma LeadsThen(st: Reading, a: seq<string>, mid: Reading, b: seq<string>, next: Reading)
    requires Leads(st, a, mid) && Leads(mid, b, next)
    ensures Leads(st, a + b, next)
  {
    LeadsMeans(st, a, mid);
    LeadsMeans(mid, b, next);
    LeadsMeans(st, a + b, next);
    ReadConcat(st, a, b);
  }

  lemma LeadsOne(st: Reading, lines: seq<string>, mid: Reading, line: string, next: Reading)
    requires Leads(st, lines, mid) && StepLine(mid, line) == Ok(next) && Clean(line)
    ensures Leads(st, lines + [line], next)
  {
    assert [line][1..] == [];
    assert ReadLines(next, []) == Ok(next);
    LeadsMeans(mid, [line], next);
    LeadsThen(st, lines, mid, [line], next);
  }

  lemma SectionChars(section: string)
    requires section in SECTIONS
    ensures section != "" && forall i | 0 <= i < |section| :: 'a' <= section[i] <= 'z'
  {
  }

  lemma HeaderText(section: string)
    requires section in SECTIONS
    ensures Bare(section + ":") && Spaces(0) + (section + ":") == section + ":"
  {
    var text := section + ":";
    SectionChars(section);
    assert forall i | 0 <= i < |text| :: 'a' <= text[i] <= 'z' || text[i] == ':';
    NoQuotes(text);
  }

  function Entered(c: Challenge, section: string): Reading {
    Reading(section, Nothing, if section == "runtime" then WithRuntime(c) else c)
  }

  lemma HeaderStep(st: Reading, section: string)
    ensures Header(st, section + ":") == Ok(Entered(st.challenge, section))
  {
    var text := section + ":";
    assert text[..|text| - 1] == section;
  }

  lemma HeaderRead(st: Reading, section: string)
    requires section in SECTIONS
    ensures Leads(st, [section + ":"], Entered(st.challenge, section))
  {
    var text := section + ":";
    HeaderText(section);
    PaddedLine(0, text);
    HeaderStep(st, section);
    LeadsNowhere(st);
    LeadsOne(st, [], st, text, Entered(st.challenge, section));
    assert [] + [text] == [text];
  }

  const SECTIONS := {"meta", "flag", "content", "ownership", "runtime", "attachments"}

  function ScalarLine(key: string, v: string): string { Spaces(2) + Field(key, v) }

  // A printed scalar assigns its value to its key.
  lemma ScalarRead(st: Reading, lines: seq<string>, mid: Reading, key: string, v: string, c: Challenge)
    requires Leads(st, lines, mid) && CleanKey(key) && Printable(v)
    requires mid.section != "attachments" && Assign(mid.challenge, mid.section, key, Quoted(v)) == Ok(c)
    ensures Leads(st, lines + [ScalarLine(key, v)], Reading(mid.section, Nothing, c))
  {
    FieldText(key, v);
    FieldSplit(key, v);
    PaddedStep(mid, Field(key, v));
    LeadsOne(st, lines, mid, ScalarLine(key, v), Reading(mid.section, Nothing, c));
  }

  lemma NestedStep(mid: Reading, name: string, nested: Nested)
    requires mid.section == "runtime" && mid.challenge.runtime.Some?
    requires (name == "env" && nested == Env) || (name == "command" && nested == Command)
    ensures Spec.Member(mid, name + ":") == Ok(mid.(nested := nested)) && Bare(name + ":")
  {
    NoQuotes(name + ":");
  }

  lemma NestedRead(st: Reading, lines: seq<string>, mid: Reading, name: string, nested: Nested)
    requires Leads(st, lines, mid) && mid.section == "runtime" && mid.challenge.runtime.Some?
    requires (name == "env" && nested == Env) || (name == "command" && nested == Command)
    ensures Leads(st, lines + [Spaces(2) + (name + ":")], mid.(nested := nested))
  {
    NestedStep(mid, name, nested);
    PaddedStep(mid, name + ":");
    LeadsOne(st, lines, mid, Spaces(2) + (name + ":"), mid.(nested := nested));
  }

  // ---- The sections ---------------------------------------------------------------------------

  // The scalars of the section, in the order they are printed.
  function MetaField(m: Meta, i: nat): (string, string)
    requires i < 9
  {
    match i
    case 0 => ("slug", m.slug)
    case 1 => ("title", m.title)
    case 2 => ("category", m.category)
    case 3 => ("points", Itoa(m.points))
    case 4 => ("difficulty", m.difficulty)
    case 5 => ("dynamic", BoolText(m.dynamic))
    case 6 => ("status", m.status)
    case 7 => ("visible", BoolText(m.visible))
    case _ => ("sort_order", Itoa(m.sortOrder))
  }

  // The section with its first i scalars read.
  function MetaUpTo(b: Meta, m: Meta, i: nat): Meta {
    Meta(if i > 0 then m.slug else b.slug, if i > 1 then m.title else b.title,
         if i > 2 then m.category else b.category, if i > 3 then m.points else b.points,
         if i > 4 then m.difficulty else b.difficulty, if i > 5 then m.dynamic else b.dynamic,
         if i > 6 then m.status else b.status, if i > 7 then m.visible else b.visible,
         if i > 8 then m.sortOrder else b.sortOrder)
  }

  function MetaLines(m: Meta, i: nat): seq<string>
    requires i <= 9
  {
    if i == 0 then ["meta" + ":"]
    else MetaLines(m, i - 1) + [ScalarLine(MetaField(m, i - 1).0, MetaField(m, i - 1).1)]
  }

  predicate MetaPrintable(m: Meta) {
    && Printable(m.slug) && Printable(m.title) && Printable(m.category) && Printable(m.difficulty)
    && Printable(m.status) && FitsInt(m.points) && FitsInt(m.sortOrder)
  }

  lemma ScalarAssigned(c: Challenge, key: string, v: string)
    requires Printable(v)
    ensures Assign(c, "meta", key, Quoted(v)) == Then(AssignMeta(c.meta, key, v), m => c.(meta := m))
    ensures Assign(c, "runtime", key, Quoted(v)) ==
            Then(AssignRuntime(RuntimeOf(c), key, v), r => c.(runtime := Some(r)))
  {
    QuotedExact(v);
  }

  const KEYS := {
    "slug", "title", "category", "points", "difficulty", "dynamic", "status", "visible", "sort_order",
    "image", "mode", "expose", "container_port", "ttl", "memory_limit_mb", "cpu_limit_millicores",
    "max_renew_count", "max_active_instances", "user_cooldown", "type", "value", "description", "author",
    "filename", "source", "content_type"}

  lemma KeyChars(key: string)
    requires key in KEYS
    ensures key != "" && forall i | 0 <= i < |key| :: 'a' <= key[i] <= 'z' || key[i] == '_'
  {
  }

  lemma KeyClean(key: string)
    requires key in KEYS
    ensures CleanKey(key)
  {
    KeyChars(key);
  }

  lemma BoolPrintable(b: bool)
    ensures Printable(BoolText(b)) && ParseBool(BoolText(b)) == Some(b)
  {
    PlainPrintable(BoolText(b));
    BoolRead(b);
  }

  lemma MetaFieldPrintable(m: Meta, i: nat)
    requires i < 9 && MetaPrintable(m)
    ensures MetaField(m, i).0 in KEYS && Printable(MetaField(m, i).1)
  {
    match i {
      case 3 => IntPrintable(m.points);
      case 5 => BoolPrintable(m.dynamic);
      case 7 => BoolPrintable(m.visible);
      case 8 => IntPrintable(m.sortOrder);
      case _ =>
    }
  }

  lemma MetaFieldAssigned(b: Meta, m: Meta, i: nat)
    requires i < 9 && MetaPrintable(m)
    ensures AssignMeta(MetaUpTo(b, m, i), MetaField(m, i).0, MetaField(m, i).1) == Ok(MetaUpTo(b, m, i + 1))
  {
    if i < 5 {
      LowFieldAssigned(b, m, i);
    } else if i == 5 || i == 7 {
      SwitchAssigned(b, m, i, if i == 5 then m.dynamic else m.visible);
    } else {
      HighFieldAssigned(b, m, i);
    }
  }

  lemma LowFieldAssigned(b: Meta, m: Meta, i: nat)
    requires i < 5 && MetaPrintable(m)
    ensures AssignMeta(MetaUpTo(b, m, i), MetaField(m, i).0, MetaField(m, i).1) == Ok(MetaUpTo(b, m, i + 1))
  {
    if i == 3 {
      NumberAssigned(MetaUpTo(b, m, 3), m.points);
    }
  }

  lemma NumberAssigned(m: Meta, n: int)
    requires FitsInt(n)
    ensures AssignMeta(m, "points", Itoa(n)) == Ok(m.(points := n))
    ensures AssignMeta(m, "sort_order", Itoa(n)) == Ok(m.(sortOrder := n))
  {
    AtoiItoa(n);
  }

  lemma HighFieldAssigned(b: Meta, m: Meta, i: nat)
    requires (i == 6 || i == 8) && MetaPrintable(m)
    ensures AssignMeta(MetaUpTo(b, m, i), MetaField(m, i).0, MetaField(m, i).1) == Ok(MetaUpTo(b, m, i + 1))
  {
    if i == 8 { NumberAssigned(MetaUpTo(b, m, 8), m.sortOrder); }
  }

  lemma SwitchAssigned(b: Meta, m: Meta, i: nat, on: bool)
    requires (i == 5 && on == m.dynamic) || (i == 7 && on == m.visible)
    ensures AssignMeta(MetaUpTo(b, m, i), MetaField(m, i).0, MetaField(m, i).1) == Ok(MetaUpTo(b, m, i + 1))
  {
    BoolRead(on);
  }

  lemma {:induction false} MetaRead(st: Reading, m: Meta, i: nat)
    requires MetaPrintable(m) && i <= 9
    ensures Leads(st, MetaLines(m, i),
                  Reading("meta", Nothing, st.challenge.(meta := MetaUpTo(st.challenge.meta, m, i))))
  {
    var c := st.challenge;
    if i == 0 {
      HeaderRead(st, "meta");
      assert c.(meta := MetaUpTo(c.meta, m, 0)) == c;
    } else {
      MetaRead(st, m, i - 1);
      MetaFieldPrintable(m, i - 1);
      MetaFieldAssigned(c.meta, m, i - 1);
      var f, n := MetaField(m, i - 1), MetaUpTo(c.meta, m, i - 1);
      KeyClean(f.0);
      ScalarAssigned(c.(meta := n), f.0, f.1);
      ScalarRead(st, MetaLines(m, i - 1), Reading("meta", Nothing, c.(meta := n)), f.0, f.1,
                 c.(meta := MetaUpTo(c.meta, m, i)));
    }
  }

  function TextLines(c: Challenge): seq<string> {
    ["flag" + ":"] + [ScalarLine("type", c.flag.kind)] + [ScalarLine("value", c.flag.value)]
    + ["content" + ":"] + [ScalarLine("description", c.content.description)]
    + [ScalarLine("author", c.content.author)]
    + ["ownership" + ":"] + [ScalarLine("author", c.owner)]
  }

  predicate TextsPrintable(c: Challenge) {
    && Printable(c.flag.kind) && Printable(c.flag.value) && Printable(c.content.description)
    && Printable(c.content.author) && Printable(c.owner)
  }

  lemma FlagRead(st: Reading, flag: Flag)
    requires Printable(flag.kind) && Printable(flag.value)
    ensures Leads(st, ["flag" + ":"] + [ScalarLine("type", flag.kind)] + [ScalarLine("value", flag.value)],
                  Reading("flag", Nothing, st.challenge.(flag := flag)))
  {
    HeaderRead(st, "flag");
    QuotedExact(flag.kind);
    QuotedExact(flag.value);
    var c := st.challenge;
    var typed := c.(flag := c.flag.(kind := flag.kind));
    ScalarRead(st, ["flag" + ":"], Reading("flag", Nothing, c), "type", flag.kind, typed);
    ScalarRead(st, ["flag" + ":"] + [ScalarLine("type", flag.kind)], Reading("flag", Nothing, typed),
               "value", flag.value, c.(flag := flag));
  }

  lemma ContentRead(st: Reading, content: Content)
    requires Printable(content.description) && Printable(content.author)
    ensures Leads(st, ["content" + ":"] + [ScalarLine("description", content.description)]
                      + [ScalarLine("author", content.author)],
                  Reading("content", Nothing, st.challenge.(content := content)))
  {
    HeaderRead(st, "content");
    QuotedExact(content.description);
    QuotedExact(content.author);
    var c := st.challenge;
    var described := c.(content := c.content.(description := content.description));
    ScalarRead(st, ["content" + ":"], Reading("content", Nothing, c), "description", content.description, described);
    ScalarRead(st, ["content" + ":"] + [ScalarLine("description", content.description)],
               Reading("content", Nothing, described), "author", content.author, c.(content := content));
  }

  lemma OwnerRead(st: Reading, owner: string)
    requires Printable(owner)
    ensures Leads(st, ["ownership" + ":"] + [ScalarLine("author", owner)],
                  Reading("ownership", Nothing, st.challenge.(owner := owner)))
  {
    HeaderRead(st, "ownership");
    QuotedExact(owner);
    ScalarRead(st, ["ownership" + ":"], Reading("ownership", Nothing, st.challenge), "author", owner,
               st.challenge.(owner := owner));
  }

  lemma TextsRead(st: Reading, c: Challenge)
    requires TextsPrintable(c)
    ensures Leads(st, TextLines(c), Reading("ownership", Nothing,
                  st.challenge.(flag := c.flag, content := c.content, owner := c.owner)))
  {
    var d := st.challenge;
    var flagged := Reading("flag", Nothing, d.(flag := c.flag));
    var filled := Reading("content", Nothing, d.(flag := c.flag, content := c.content));
    var owned := Reading("ownership", Nothing, d.(flag := c.flag, content := c.content, owner := c.owner));
    var flag := ["flag" + ":"] + [ScalarLine("type", c.flag.kind)] + [ScalarLine("value", c.flag.value)];
    var content := ["content" + ":"] + [ScalarLine("description", c.content.description)]
                   + [ScalarLine("author", c.content.author)];
    var owner := ["ownership" + ":"] + [ScalarLine("author", c.owner)];
    FlagRead(st, c.flag);
    ContentRead(flagged, c.content);
    OwnerRead(filled, c.owner);
    LeadsThen(st, flag, flagged, content, filled);
    LeadsThen(st, flag + content, filled, owner, owned);
    assert TextLines(c) == flag + content + owner;
  }

  // ---- Attachments ----------------------------------------------------------------------------

  function AttachmentLines(a: Attachment): seq<string> {
    [Spaces(2) + ("- " + Field("filename", a.filename))]
    + [Spaces(4) + Field("source", a.source)]
    + [Spaces(4) + Field("content_type", a.contentType)]
  }

  function ListLines(s: seq<Attachment>): seq<string> {
    if s == [] then [] else ListLines(s[..|s| - 1]) + AttachmentLines(s[|s| - 1])
  }

  predicate AttachmentPrintable(a: Attachment) {
    Printable(a.filename) && Printable(a.source) && Printable(a.contentType)
  }

  // A list item: a dash and a bare text.
  lemma ItemText(item: string)
    requires Bare(item)
    ensures Bare("- " + item) && IsItem("- " + item) && Trim(("- " + item)[2..]) == item
  {
    var dash := "- ";
    NoQuotes(dash);
    UncommentedConcat(UNQUOTED, dash, item);
    AfterDash(item);
  }

  lemma AfterDash(item: string)
    requires item != "" && Trimmed(item)
    ensures var text := "- " + item; Trimmed(text) && IsItem(text) && Trim(text[2..]) == item
  {
    assert ("- " + item)[2..] == item;
    TightKept(item, IsSpace);
  }

  lemma PartAssigned(mid: Reading, key: string, v: string, before: seq<Attachment>, a: Attachment, b: Attachment)
    requires mid.challenge.attachments == before + [a] && CleanKey(key) && Printable(v)
    requires AssignAttachment(a, key, Quoted(v)) == Ok(b)
    ensures LastField(mid, Field(key, v)) == Ok(mid.(challenge := mid.challenge.(attachments := before + [b])))
  {
    FieldSplit(key, v);
    assert (before + [a])[|before| := b] == before + [b];
  }

  // A list item opens an attachment and assigns to it.
  lemma ItemOpens(mid: Reading, field: string)
    requires mid.section == "attachments" && Bare(field)
    ensures
      Spec.Member(mid, "- " + field) ==
      LastField(Reading("attachments", InAttachment,
                        mid.challenge.(attachments := mid.challenge.attachments + [BLANK])), field)
  {
    ItemText(field);
  }

  const BLANK := Attachment("", "", "")

  lemma ItemRead(st: Reading, lines: seq<string>, mid: Reading, v: string)
    requires Leads(st, lines, mid) && mid.section == "attachments" && Printable(v)
    ensures Leads(st, lines + [Spaces(2) + ("- " + Field("filename", v))],
                  Reading("attachments", InAttachment, mid.challenge.(
                    attachments := mid.challenge.attachments + [Attachment(v, "", "")])))
  {
    var field := Field("filename", v);
    var before, named := mid.challenge.attachments, Attachment(v, "", "");
    var added := Reading("attachments", InAttachment, mid.challenge.(attachments := before + [BLANK]));
    KeyClean("filename");
    FieldText("filename", v);
    ItemText(field);
    ItemOpens(mid, field);
    QuotedExact(v);
    PartAssigned(added, "filename", v, before, BLANK, named);
    PaddedStep(mid, "- " + field);
    LeadsOne(st, lines, mid, Spaces(2) + ("- " + field),
             Reading("attachments", InAttachment, mid.challenge.(attachments := before + [named])));
  }

  lemma PartRead(st: Reading, lines: seq<string>, mid: Reading, key: string, v: string,
                 before: seq<Attachment>, a: Attachment, b: Attachment)
    requires Leads(st, lines, mid) && mid.section == "attachments" && mid.nested == InAttachment
    requires mid.challenge.attachments == before + [a] && CleanKey(key) && Printable(v)
    requires AssignAttachment(a, key, Quoted(v)) == Ok(b)
    ensures Leads(st, lines + [Spaces(4) + Field(key, v)],
                  mid.(challenge := mid.challenge.(attachments := before + [b])))
  {
    var text := Field(key, v);
    FieldText(key, v);
    PaddedStep(mid, text);
    PartAssigned(mid, key, v, before, a, b);
    LeadsOne(st, lines, mid, Spaces(4) + text, mid.(challenge := mid.challenge.(attachments := before + [b])));
  }

  lemma AttachmentRead(st: Reading, lines: seq<string>, mid: Reading, a: Attachment)
    requires Leads(st, lines, mid) && mid.section == "attachments" && AttachmentPrintable(a)
    ensures Leads(st, lines + AttachmentLines(a), Reading("attachments", InAttachment,
                  mid.challenge.(attachments := mid.challenge.attachments + [a])))
  {
    var c := mid.challenge;
    var before := c.attachments;
    var named := Attachment(a.filename, "", "");
    var placed := Attachment(a.filename, a.source, "");
    var at := x => Reading("attachments", InAttachment, c.(attachments := before + [x]));
    QuotedExact(a.source);
    QuotedExact(a.contentType);
    ItemRead(st, lines, mid, a.filename);
    var first := lines + [Spaces(2) + ("- " + Field("filename", a.filename))];
    PartRead(st, first, at(named), "source", a.source, before, named, placed);
    var second := first + [Spaces(4) + Field("source", a.source)];
    PartRead(st, second, at(placed), "content_type", a.contentType, before, placed, a);
    assert lines + AttachmentLines(a) == second + [Spaces(4) + Field("content_type", a.contentType)];
  }

  lemma {:induction false} ListRead(st: Reading, s: seq<Attachment>)
    requires st.section == "attachments" && forall a | a in s :: AttachmentPrintable(a)
    ensures Leads(st, ListLines(s), Reading("attachments", if s == [] then st.nested else InAttachment,
                  st.challenge.(attachments := st.challenge.attachments + s)))
  {
    if s == [] {
      LeadsNowhere(st);
      assert st.challenge.attachments + s == st.challenge.attachments;
    } else {
      var most, last := s[..|s| - 1], s[|s| - 1];
      ListRead(st, most);
      var mid := Reading("attachments", if most == [] then st.nested else InAttachment,
                         st.challenge.(attachments := st.challenge.attachments + most));
      AttachmentRead(st, ListLines(most), mid, last);
      assert st.challenge.attachments + most + [last] == st.challenge.attachments + s;
    }
  }

  // ---- Environment and command ----------------------------------------------------------------

  function EnvLines(env: map<string, string>, keys: seq<string>): seq<string>
    requires forall k | k in keys :: k in env
  {
    if keys == [] then []
    else
      var key := keys[|keys| - 1];
      EnvLines(env, keys[..|keys| - 1]) + [Spaces(4) + Field(key, env[key])]
  }

  predicate EnvPrintable(env: map<string, string>) {
    forall k | k in env :: CleanKey(k) && Printable(env[k])
  }

  // The bindings of the keys read so far, over those there were.
  function Bound(base: map<string, string>, env: map<string, string>, keys: seq<string>): map<string, string>
    requires forall k | k in keys :: k in env
  {
    base + map k | k in keys :: env[k]
  }

  lemma BoundMore(base: map<string, string>, env: map<string, string>, most: seq<string>, key: string)
    requires key in env && forall k | k in most :: k in env
    ensures Bound(base, env, most)[key := env[key]] == Bound(base, env, most + [key])
  {
  }

  lemma VariableRead(st: Reading, lines: seq<string>, mid: Reading, key: string, v: string)
    requires Leads(st, lines, mid) && mid.section == "runtime" && mid.nested == Env
    requires CleanKey(key) && Printable(v)
    ensures
      var r := RuntimeOf(mid.challenge);
      Leads(st, lines + [Spaces(4) + Field(key, v)],
            mid.(challenge := mid.challenge.(runtime := Some(r.(env := r.env[key := v])))))
  {
    FieldText(key, v);
    FieldSplit(key, v);
    PaddedStep(mid, Field(key, v));
    var r := RuntimeOf(mid.challenge);
    LeadsOne(st, lines, mid, Spaces(4) + Field(key, v),
             mid.(challenge := mid.challenge.(runtime := Some(r.(env := r.env[key := v])))));
  }

  lemma {:induction false} EnvRead(st: Reading, env: map<string, string>, keys: seq<string>)
    requires st.section == "runtime" && st.nested == Env && st.challenge.runtime.Some?
    requires EnvPrintable(env) && forall k | k in keys :: k in env
    ensures
      var r := RuntimeOf(st.challenge);
      Leads(st, EnvLines(env, keys),
            st.(challenge := st.challenge.(runtime := Some(r.(env := Bound(r.env, env, keys))))))
  {
    var r := RuntimeOf(st.challenge);
    if keys == [] {
      LeadsNowhere(st);
      assert Bound(r.env, env, keys) == r.env;
    } else {
      var most, key := keys[..|keys| - 1], keys[|keys| - 1];
      EnvRead(st, env, most);
      var mid := st.(challenge := st.challenge.(runtime := Some(r.(env := Bound(r.env, env, most)))));
      VariableRead(st, EnvLines(env, most), mid, key, env[key]);
      BoundMore(r.env, env, most, key);
      assert keys == most + [key];
    }
  }

  function CommandLines(command: seq<string>): seq<string> {
    if command == [] then []
    else CommandLines(command[..|command| - 1]) + [Spaces(4) + ("- " + command[|command| - 1])]
  }

  lemma CommandItemRead(st: Reading, lines: seq<string>, mid: Reading, item: string)
    requires Leads(st, lines, mid) && mid.section == "runtime" && mid.nested == Command
    requires Bare(item)
    ensures
      var r := RuntimeOf(mid.challenge);
      Leads(st, lines + [Spaces(4) + ("- " + item)],
            mid.(challenge := mid.challenge.(runtime := Some(r.(command := r.command + [item])))))
  {
    var text := "- " + item;
    ItemText(item);
    PaddedStep(mid, text);
    var r := RuntimeOf(mid.challenge);
    LeadsOne(st, lines, mid, Spaces(4) + text,
             mid.(challenge := mid.challenge.(runtime := Some(r.(command := r.command + [item])))));
  }

  lemma {:induction false} CommandRead(st: Reading, command: seq<string>)
    requires st.section == "runtime" && st.nested == Command && st.challenge.runtime.Some?
    requires forall item | item in command :: Bare(item)
    ensures
      var r := RuntimeOf(st.challenge);
      Leads(st, CommandLines(command),
            st.(challenge := st.challenge.(runtime := Some(r.(command := r.command + command)))))
  {
    var r := RuntimeOf(st.challenge);
    if command == [] {
      LeadsNowhere(st);
      assert r.command + command == r.command;
    } else {
      var most, item := command[..|command| - 1], command[|command| - 1];
      CommandRead(st, most);
      var mid := st.(challenge := st.challenge.(runtime := Some(r.(command := r.command + most))));
      CommandItemRead(st, CommandLines(most), mid, item);
      assert r.command + most + [item] == r.command + command;
    }
  }

  // ---- Runtime --------------------------------------------------------------------------------

  function LimitField(r: Runtime, i: nat): (string, string)
    requires r.ttl >= 0 && r.cooldown >= 0 && i < 10
  {
    match i
    case 0 => ("image", r.image)
    case 1 => ("mode", r.mode)
    case 2 => ("expose", r.expose)
    case 3 => ("container_port", Itoa(r.port))
    case 4 => ("ttl", DurationText(r.ttl))
    case 5 => ("memory_limit_mb", Itoa(r.memory))
    case 6 => ("cpu_limit_millicores", Itoa(r.cpu))
    case 7 => ("max_renew_count", Itoa(r.maxRenew))
    case 8 => ("max_active_instances", Itoa(r.maxActive))
    case _ => ("user_cooldown", DurationText(r.cooldown))
  }

  function RuntimeUpTo(r: Runtime, i: nat): Runtime {
    Runtime(if i > 0 then r.image else "", if i > 1 then r.mode else "", if i > 2 then r.expose else "",
            if i > 3 then r.port else 0, if i > 4 then r.ttl else 0, if i > 5 then r.memory else 0,
            if i > 6 then r.cpu else 0, if i > 7 then r.maxRenew else 0, if i > 8 then r.maxActive else 0,
            if i > 9 then r.cooldown else 0, map[], [], true)
  }

  function LimitLines(r: Runtime, i: nat): seq<string>
    requires r.ttl >= 0 && r.cooldown >= 0 && i <= 10
  {
    if i == 0 then ["runtime" + ":"]
    else LimitLines(r, i - 1) + [ScalarLine(LimitField(r, i - 1).0, LimitField(r, i - 1).1)]
  }

  predicate LimitsPrintable(r: Runtime) {
    && Printable(r.image) && Printable(r.mode) && Printable(r.expose)
    && FitsInt(r.port) && FitsInt(r.memory) && FitsInt(r.cpu) && FitsInt(r.maxRenew) && FitsInt(r.maxActive)
    && 0 <= r.ttl <= MAX_SECONDS && 0 <= r.cooldown <= MAX_SECONDS
  }

  lemma LimitPrintable(r: Runtime, i: nat)
    requires i < 10 && LimitsPrintable(r)
    ensures LimitField(r, i).0 in KEYS && Printable(LimitField(r, i).1)
  {
    match i {
      case 3 => IntPrintable(r.port);
      case 4 => SecondsPrintable(r.ttl);
      case 5 => IntPrintable(r.memory);
      case 6 => IntPrintable(r.cpu);
      case 7 => IntPrintable(r.maxRenew);
      case 8 => IntPrintable(r.maxActive);
      case 9 => SecondsPrintable(r.cooldown);
      case _ =>
    }
  }

  lemma LimitAssigned(r: Runtime, i: nat)
    requires i < 10 && LimitsPrintable(r)
    ensures AssignRuntime(RuntimeUpTo(r, i), LimitField(r, i).0, LimitField(r, i).1) == Ok(RuntimeUpTo(r, i + 1))
  {
    if i < 5 {
      LowLimitAssigned(r, i);
    } else if i < 8 {
      MiddleLimitAssigned(r, i);
    } else {
      HighLimitAssigned(r, i);
    }
  }

  lemma LowLimitAssigned(r: Runtime, i: nat)
    requires i < 5 && LimitsPrintable(r)
    ensures AssignRuntime(RuntimeUpTo(r, i), LimitField(r, i).0, LimitField(r, i).1) == Ok(RuntimeUpTo(r, i + 1))
  {
    match i {
      case 3 => AtoiItoa(r.port);
      case 4 => DurationRead(r.ttl);
      case _ =>
    }
  }

  lemma MiddleLimitAssigned(r: Runtime, i: nat)
    requires 5 <= i < 8 && LimitsPrintable(r)
    ensures AssignRuntime(RuntimeUpTo(r, i), LimitField(r, i).0, LimitField(r, i).1) == Ok(RuntimeUpTo(r, i + 1))
  {
    match i {
      case 5 => MemoryAssigned(RuntimeUpTo(r, 5), r.memory);
      case 6 => CpuAssigned(RuntimeUpTo(r, 6), r.cpu);
      case _ => RenewalsAssigned(RuntimeUpTo(r, 7), r.maxRenew);
    }
  }

  lemma MemoryAssigned(r: Runtime, n: int)
    requires FitsInt(n)
    ensures AssignRuntime(r, "memory_limit_mb", Itoa(n)) == Ok(r.(memory := n))
  {
    AtoiItoa(n);
  }

  lemma CpuAssigned(r: Runtime, n: int)
    requires FitsInt(n)
    ensures AssignRuntime(r, "cpu_limit_millicores", Itoa(n)) == Ok(r.(cpu := n))
  {
    AtoiItoa(n);
  }

  lemma RenewalsAssigned(r: Runtime, n: int)
    requires FitsInt(n)
    ensures AssignRuntime(r, "max_renew_count", Itoa(n)) == Ok(r.(maxRenew := n))
  {
    AtoiItoa(n);
  }

  lemma HighLimitAssigned(r: Runtime, i: nat)
    requires 8 <= i < 10 && LimitsPrintable(r)
    ensures AssignRuntime(RuntimeUpTo(r, i), LimitField(r, i).0, LimitField(r, i).1) == Ok(RuntimeUpTo(r, i + 1))
  {
    if i == 8 {
      ActiveAssigned(RuntimeUpTo(r, 8), r.maxActive);
    } else {
      CooldownAssigned(RuntimeUpTo(r, 9), r.cooldown);
    }
  }

  lemma ActiveAssigned(r: Runtime, n: int)
    requires FitsInt(n)
    ensures AssignRuntime(r, "max_active_instances", Itoa(n)) == Ok(r.(maxActive := n))
  {
    AtoiItoa(n);
  }

  lemma CooldownAssigned(r: Runtime, n: int)
    requires 0 <= n <= MAX_SECONDS
    ensures AssignRuntime(r, "user_cooldown", DurationText(n)) == Ok(r.(cooldown := n))
  {
    DurationRead(n);
  }

  lemma {:induction false} LimitsRead(st: Reading, r: Runtime, i: nat)
    requires LimitsPrintable(r) && st.challenge.runtime.None? && i <= 10
    ensures Leads(st, LimitLines(r, i),
                  Reading("runtime", Nothing, st.challenge.(runtime := Some(RuntimeUpTo(r, i)))))
  {
    var c := st.challenge;
    if i == 0 {
      HeaderRead(st, "runtime");
    } else {
      LimitsRead(st, r, i - 1);
      LimitPrintable(r, i - 1);
      LimitAssigned(r, i - 1);
      var f, d := LimitField(r, i - 1), c.(runtime := Some(RuntimeUpTo(r, i - 1)));
      KeyClean(f.0);
      ScalarAssigned(d, f.0, f.1);
      ScalarRead(st, LimitLines(r, i - 1), Reading("runtime", Nothing, d), f.0, f.1,
                 c.(runtime := Some(RuntimeUpTo(r, i))));
    }
  }

  // ---- The whole text -------------------------------------------------------------------------

  // Environment variables may be printed in any order.
  predicate Enumerates(keys: seq<string>, env: map<string, string>) {
    (set k | k in keys) == env.Keys
  }

  predicate RuntimePrintable(r: Runtime) {
    LimitsPrintable(r) && EnvPrintable(r.env) && forall item | item in r.command :: Bare(item)
  }

  function RuntimeLines(r: Runtime, keys: seq<string>): seq<string>
    requires RuntimePrintable(r) && Enumerates(keys, r.env)
  {
    assert forall k | k in keys :: k in (set x | x in keys);
    LimitLines(r, 10) + [Spaces(2) + ("env" + ":")] + EnvLines(r.env, keys)
    + [Spaces(2) + ("command" + ":")] + CommandLines(r.command)
  }

  lemma VariablesRead(st: Reading, lines: seq<string>, c: Challenge, r: Runtime, keys: seq<string>)
    requires EnvPrintable(r.env) && Enumerates(keys, r.env) && forall k | k in keys :: k in r.env
    requires Leads(st, lines, Reading("runtime", Nothing, c.(runtime := Some(r.(env := map[], command := [])))))
    ensures Leads(st, lines + [Spaces(2) + ("env" + ":")] + EnvLines(r.env, keys),
                  Reading("runtime", Env, c.(runtime := Some(r.(command := [])))))
  {
    var bare := c.(runtime := Some(r.(env := map[], command := [])));
    var inEnv := Reading("runtime", Env, bare);
    NestedRead(st, lines, Reading("runtime", Nothing, bare), "env", Env);
    EnvRead(inEnv, r.env, keys);
    assert Bound(map[], r.env, keys) == r.env by {
      assert forall k | k in r.env :: k in (set x | x in keys);
    }
    LeadsThen(st, lines + [Spaces(2) + ("env" + ":")], inEnv, EnvLines(r.env, keys),
              Reading("runtime", Env, c.(runtime := Some(r.(command := [])))));
  }

  lemma CommandsRead(st: Reading, lines: seq<string>, c: Challenge, r: Runtime)
    requires forall item | item in r.command :: Bare(item)
    requires Leads(st, lines, Reading("runtime", Env, c.(runtime := Some(r.(command := [])))))
    ensures Leads(st, lines + [Spaces(2) + ("command" + ":")] + CommandLines(r.command),
                  Reading("runtime", Command, c.(runtime := Some(r))))
  {
    var equipped := c.(runtime := Some(r.(command := [])));
    var inCommand := Reading("runtime", Command, equipped);
    NestedRead(st, lines, Reading("runtime", Env, equipped), "command", Command);
    CommandRead(inCommand, r.command);
    assert [] + r.command == r.command;
    LeadsThen(st, lines + [Spaces(2) + ("command" + ":")], inCommand, CommandLines(r.command),
              Reading("runtime", Command, c.(runtime := Some(r))));
  }

  lemma RuntimeRead(st: Reading, r: Runtime, keys: seq<string>)
    requires RuntimePrintable(r) && r.enabled && Enumerates(keys, r.env) && st.challenge.runtime.None?
    ensures Leads(st, RuntimeLines(r, keys), Reading("runtime", Command, st.challenge.(runtime := Some(r))))
  {
    assert forall k | k in keys :: k in (set x | x in keys);
    var limits := LimitLines(r, 10);
    LimitsRead(st, r, 10);
    VariablesRead(st, limits, st.challenge, r, keys);
    CommandsRead(st, limits + [Spaces(2) + ("env" + ":")] + EnvLines(r.env, keys), st.challenge, r);
  }

  predicate Writable(c: Challenge) {
    && MetaPrintable(c.meta) && TextsPrintable(c)
    && (forall a | a in c.attachments :: AttachmentPrintable(a))
    && (c.runtime.Some? ==> RuntimePrintable(c.runtime.value) && c.runtime.value.enabled)
  }

  predicate KeysOf(c: Challenge, keys: seq<string>) {
    c.runtime.Some? ==> Enumerates(keys, c.runtime.value.env)
  }

  function PrintLines(c: Challenge, keys: seq<string>): seq<string>
    requires Writable(c) && KeysOf(c, keys)
  {
    MetaLines(c.meta, 9) + TextLines(c) + ["attachments" + ":"] + ListLines(c.attachments)
    + if c.runtime.Some? then RuntimeLines(c.runtime.value, keys) else []
  }

  lemma PrintedRead(c: Challenge, keys: seq<string>)
    requires Writable(c) && KeysOf(c, keys)
    ensures exists section, nested :: Leads(START, PrintLines(c, keys), Reading(section, nested, c))
  {
    var d0 := NO_CHALLENGE;
    var d1 := d0.(meta := c.meta);
    var d2 := d1.(flag := c.flag, content := c.content, owner := c.owner);
    var d3 := d2.(attachments := c.attachments);
    var s1, s2 := Reading("meta", Nothing, d1), Reading("ownership", Nothing, d2);
    var s3 := Reading("attachments", Nothing, d2);
    var s4 := Reading("attachments", if c.attachments == [] then Nothing else InAttachment, d3);
    MetaRead(START, c.meta, 9);
    TextsRead(s1, c);
    HeaderRead(s2, "attachments");
    ListRead(s3, c.attachments);
    assert [] + c.attachments == c.attachments;
    LeadsThen(START, MetaLines(c.meta, 9), s1, TextLines(c), s2);
    LeadsThen(START, MetaLines(c.meta, 9) + TextLines(c), s2, ["attachments" + ":"], s3);
    var all := MetaLines(c.meta, 9) + TextLines(c) + ["attachments" + ":"];
    LeadsThen(START, all, s3, ListLines(c.attachments), s4);
    if c.runtime.Some? {
      RuntimeRead(s4, c.runtime.value, keys);
      LeadsThen(START, all + ListLines(c.attachments), s4, RuntimeLines(c.runtime.value, keys),
                Reading("runtime", Command, c));
    } else {
      assert all + ListLines(c.attachments) + [] == all + ListLines(c.attachments);
      assert d3 == c;
    }
  }

  // The lines as one text.
  function Text(lines: seq<string>): string {
    if lines == [] then "" else lines[0] + "\n" + Text(lines[1..])
  }

  lemma {:induction false} LineEndAfter(line: string, rest: string)
    requires '\n' !in line
    ensures LineEnd(line + "\n" + rest) == |line|
  {
    if line == "" {
      assert line + "\n" + rest == "\n" + rest;
    } else {
      assert (line + "\n" + rest)[1..] == line[1..] + "\n" + rest;
      LineEndAfter(line[1..], rest);
    }
  }

  lemma LineScanned(line: string, rest: string)
    requires Clean(line) && |line| <= LINE_MAX
    ensures Scanned(line + "\n" + rest) == Scan([line] + Scanned(rest).lines, Scanned(rest).tooLong)
  {
    var text := line + "\n" + rest;
    LineEndAfter(line, rest);
    assert text[..|line|] == line && text[|line| + 1..] == rest;
  }

  lemma {:induction false} TextScanned(lines: seq<string>)
    requires forall l | l in lines :: Clean(l) && |l| <= LINE_MAX
    ensures Scanned(Text(lines)) == Scan(lines, false)
  {
    if lines != [] {
      TextScanned(lines[1..]);
      LineScanned(lines[0], Text(lines[1..]));
      assert lines == [lines[0]] + lines[1..];
    }
  }

  // Printing then reading gives back every challenge in normal form, whatever the order in which
  // its environment is printed.
  lemma RoundTrip(c: Challenge, keys: seq<string>, compiles: string -> bool)
    requires Normal(c, compiles) && Writable(c) && KeysOf(c, keys)
    requires forall l | l in PrintLines(c, keys) :: |l| <= LINE_MAX
    ensures Parse(Scanned(Text(PrintLines(c, keys))), compiles) == Ok(c)
  {
    PrintedRead(c, keys);
    var section, nested :| Leads(START, PrintLines(c, keys), Reading(section, nested, c));
    LeadsMeans(START, PrintLines(c, keys), Reading(section, nested, c));
    TextScanned(PrintLines(c, keys));
    NormalizeFixed(c, compiles);
  }
}
