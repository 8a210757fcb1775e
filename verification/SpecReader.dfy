// The importer's reading loop and normaliser, in the step-by-step form of the source.

module SpecReader {
  import opened Options
  import opened SpecText
  import opened Spec

  // The state of the reading loop. Environment and command are collected apart from the runtime
  // section and stored into it after every item.
  class Reader {
    var section: string
    var nested: Nested
    var meta: Meta
    var flag: Flag
    var content: Content
    var owner: string
    var runtime: Option<Runtime>
    var attachments: seq<Attachment>
    var env: map<string, string>
    var command: seq<string>

    // The collections agree with the runtime section.
    ghost predicate Valid()
      reads this
    {
      && RuntimeOf(Draft()).env == env && RuntimeOf(Draft()).command == command
    }

    function Draft(): Challenge
      reads this
    {
      Challenge(meta, flag, content, owner, runtime, attachments)
    }

    function State(): Reading
      reads this
    {
      Reading(section, nested, Draft())
    }

    constructor ()
      ensures Valid() && State() == START
    {
      section, nested := "", Nothing;
      meta, flag, content := NO_CHALLENGE.meta, NO_CHALLENGE.flag, NO_CHALLENGE.content;
      owner, runtime, attachments := "", None, [];
      env, command := map[], [];
    }

    // What a statement on this state did is what a function of the state says.
    ghost predicate Did(expected: Result<Reading>, failure: Option<Failure>)
      reads this
    {
      match expected
      case Ok(next) => failure == None && State() == next && Valid()
      case Err(e) => failure == Some(e)
    }

    method AssignMetaScalar(key: string, v: string) returns (failure: Option<Failure>)
      requires Valid()
      modifies this
      ensures Did(Then(AssignMeta(old(meta), key, v),
                       m => old(State()).(challenge := old(Draft()).(meta := m))), failure)
    {
      failure := None;
      match key {
        case "slug" => meta := meta.(slug := v);
        case "title" => meta := meta.(title := v);
        case "category" => meta := meta.(category := v);
        case "points" =>
          var parsed := Atoi(v);
          if parsed.None? { return Some(NotNumeric); }
          meta := meta.(points := parsed.value);
        case "difficulty" => meta := meta.(difficulty := v);
        case "dynamic" =>
          var parsed := ParseBool(v);
          if parsed.None? { return Some(NotBoolean); }
          meta := meta.(dynamic := parsed.value);
        case "status" => meta := meta.(status := v);
        case "visible" =>
          var parsed := ParseBool(v);
          if parsed.None? { return Some(NotBoolean); }
          meta := meta.(visible := parsed.value);
        case "sort_order" =>
          var parsed := Atoi(v);
          if parsed.None? { return Some(NotNumeric); }
          meta := meta.(sortOrder := parsed.value);
        case _ => return Some(KeyUnsupported);
      }
    }

    method AssignRuntimeScalar(key: string, v: string) returns (failure: Option<Failure>)
      requires Valid() && runtime.Some?
      modifies this
      ensures Did(Then(AssignRuntime(old(runtime.value), key, v),
                       r => old(State()).(challenge := old(Draft()).(runtime := Some(r)))), failure)
    {
      failure := None;
      var r := runtime.value;
      match key {
        case "image" => r := r.(image := v);
        case "mode" => r := r.(mode := v);
        case "expose" => r := r.(expose := v);
        case "renew_allowed" =>
          var parsed := ParseBool(v);
          if parsed.None? { return Some(NotBoolean); }
          if parsed.value {
            if r.maxRenew == 0 { r := r.(maxRenew := 1); }
          } else {
            r := r.(maxRenew := 0);
          }
        case "ttl" =>
          var parsed := ParseDuration(v);
          if parsed.None? { return Some(NotDuration); }
          r := r.(ttl := parsed.value);
        case "user_cooldown" =>
          var parsed := ParseDuration(v);
          if parsed.None? { return Some(NotDuration); }
          r := r.(cooldown := parsed.value);
        case _ =>
          if key !in NUMBERS { return Some(KeyUnsupported); }
          var parsed := Atoi(v);
          if parsed.None? { return Some(NotNumeric); }
          r := WithNumber(r, key, parsed.value);
      }
      runtime := Some(r);
    }

    // assignScalar
    method AssignScalar(key: string, value: string) returns (failure: Option<Failure>)
      requires Valid()
      modifies this
      ensures Did(Then(Assign(old(Draft()), old(section), key, value),
                       c => old(State()).(challenge := c)), failure)
    {
      var v := Scalar(value);
      failure := None;
      match section {
        case "meta" => failure := AssignMetaScalar(key, v);
        case "flag" =>
          match key {
            case "type" => flag := flag.(kind := v);
            case "value" => flag := flag.(value := v);
            case _ => failure := Some(KeyUnsupported);
          }
        case "content" =>
          match key {
            case "description" => content := content.(description := v);
            case "author" => content := content.(author := v);
            case _ => failure := Some(KeyUnsupported);
          }
        case "ownership" =>
          match key {
            case "author" => owner := v;
            case _ => failure := Some(KeyUnsupported);
          }
        case "runtime" =>
          if runtime.None? { runtime := Some(NEW_RUNTIME); }
          failure := AssignRuntimeScalar(key, v);
        case _ => failure := Some(SectionUnsupported);
      }
    }

    // A key and value for the attachment at the end of the list.
    method AssignLastAttachment(text: string) returns (failure: Option<Failure>)
      requires Valid() && attachments != []
      modifies this
      ensures Did(LastField(old(State()), text), failure)
    {
      var last := |attachments| - 1;
      match SplitKeyValue(text) {
        case ColonExpected => return Some(KeyValueExpected);
        case KeyEmpty => return Some(Failure.KeyEmpty);
        case Split(key, value) =>
          var v := Scalar(value);
          match key {
            case "filename" => attachments := attachments[last := attachments[last].(filename := v)];
            case "source" => attachments := attachments[last := attachments[last].(source := v)];
            case "content_type" => attachments := attachments[last := attachments[last].(contentType := v)];
            case _ => return Some(KeyUnsupported);
          }
          return None;
      }
    }

    method ReadHeader(text: string) returns (failure: Option<Failure>)
      requires Valid() && text != ""
      modifies this
      ensures Did(Header(old(State()), text), failure)
    {
      if !EndsWith(text, ':') { return Some(SectionExpected); }
      section, nested := text[..|text| - 1], Nothing;
      if section == "runtime" && runtime.None? {
        runtime := Some(NEW_RUNTIME);
      }
      return None;
    }

    method ReadMember(text: string) returns (failure: Option<Failure>)
      requires Valid() && text != ""
      modifies this
      ensures Did(Spec.Member(old(State()), text), failure)
    {
      if section == "attachments" && IsItem(text) {
        attachments, nested := attachments + [Attachment("", "", "")], InAttachment;
        var field := Trim(text[2..]);
        failure := None;
        if field != "" {
          failure := AssignLastAttachment(field);
        }
      } else if EndsWith(text, ':') {
        failure := ReadNested(text);
      } else {
        match SplitKeyValue(text) {
          case ColonExpected => return Some(KeyValueExpected);
          case KeyEmpty => return Some(Failure.KeyEmpty);
          case Split(key, value) =>
            nested := Nothing;
            failure := AssignScalar(key, value);
        }
      }
    }

    method ReadNested(text: string) returns (failure: Option<Failure>)
      requires Valid() && EndsWith(text, ':') && !(section == "attachments" && IsItem(text))
      modifies this
      ensures Did(Spec.Member(old(State()), text), failure)
    {
      var name := text[..|text| - 1];
      assert text == name + ":";
      if section == "runtime" && (name == "env" || name == "command") {
        nested := if name == "env" then Env else Command;
        if runtime.None? { runtime := Some(NEW_RUNTIME); }
        var r := runtime.value;
        runtime := Some(if name == "env" then r.(env := env) else r.(command := command));
        return None;
      }
      return Some(NestedUnsupported);
    }

    method ReadDetail(text: string) returns (failure: Option<Failure>)
      requires Valid() && text != "" && Opened(State())
      modifies this
      ensures Did(Detail(old(State()), text), failure)
    {
      if section == "runtime" {
        match nested {
          case Command =>
            if !IsItem(text) { return Some(CommandItemExpected); }
            command := command + [Trim(text[2..])];
            runtime := Some(runtime.value.(command := command));
            return None;
          case Env =>
            match SplitKeyValue(text) {
              case ColonExpected => return Some(KeyValueExpected);
              case KeyEmpty => return Some(Failure.KeyEmpty);
              case Split(key, value) =>
                env := env[key := Scalar(value)];
                runtime := Some(runtime.value.(env := env));
                return None;
            }
          case _ => return Some(NestedUnsupported);
        }
      }
      if section == "attachments" && nested == InAttachment && attachments != [] {
        failure := AssignLastAttachment(text);
        return;
      }
      return Some(NestedMisplaced);
    }

    // One round of the reading loop.
    method ReadLine(line: string) returns (failure: Option<Failure>)
      requires Valid() && Opened(State())
      modifies this
      ensures Did(StepLine(old(State()), line), failure)
      ensures failure == None ==> Opened(State())
    {
      OpenedStep(State(), line);
      var stripped := StripComment(line);
      var text := Trim(stripped);
      if text == "" { return None; }
      var indent := Indent(line);
      if indent % 2 != 0 { return Some(OddIndent); }
      if indent == 0 {
        failure := ReadHeader(text);
      } else if indent == 2 {
        failure := ReadMember(text);
      } else if indent == 4 {
        failure := ReadDetail(text);
      } else {
        return Some(TooDeep);
      }
    }
  }

  const NUMBERS := {"container_port", "memory_limit_mb", "cpu_limit_millicores", "max_renew_count", "max_active_instances"}

  function WithNumber(r: Runtime, key: string, n: int): Runtime {
    match key
    case "container_port" => r.(port := n)
    case "memory_limit_mb" => r.(memory := n)
    case "cpu_limit_millicores" => r.(cpu := n)
    case "max_renew_count" => r.(maxRenew := n)
    case _ => r.(maxActive := n)
  }

  // NormalizeSpec
  method NormalizeSpec(c: Challenge, compiles: string -> bool) returns (r: Result<Challenge>)
    ensures r == Normalize(c, compiles)
  {
    var meta := c.meta;
    meta := meta.(slug := Trim(meta.slug), title := Trim(meta.title), category := Trim(meta.category));
    meta := meta.(difficulty := Folded(meta.difficulty));
    if meta.difficulty == "" { meta := meta.(difficulty := "normal"); }
    if meta.points <= 0 { return Err(PointsNotPositive); }
    if meta.sortOrder == 0 { meta := meta.(sortOrder := 10); }
    var status := InputStatus(meta.status, meta.visible);
    if status.None? { return Err(StatusInvalid); }
    meta := meta.(status := status.value, visible := IsPublished(status.value));
    if meta.slug == "" { return Err(SlugMissing); }
    if meta.title == "" { return Err(TitleMissing); }
    if meta.category == "" { return Err(CategoryMissing); }
    assert NormalMeta(c.meta) == Ok(meta);

    var value := Trim(c.flag.value);
    if value == "" { return Err(FlagMissing); }
    var kind := FlagType(c.flag.kind, value, compiles);
    if kind.None? { return Err(FlagInvalid); }
    var d := Challenge(meta, Flag(kind.value, value),
                       Content(Trim(c.content.description), Trim(c.content.author)), Trim(c.owner), None, []);
    var items := NormalizeAttachments(c.attachments);
    if items.Err? { return Err(items.failure); }
    d := d.(attachments := items.value);
    if c.runtime.None? { return Ok(d); }
    if !meta.dynamic { return Err(RuntimeNotDynamic); }
    var runtime := NormalizeRuntime(c.runtime.value);
    if runtime.Err? { return Err(runtime.failure); }
    return Ok(d.(runtime := Some(runtime.value)));
  }

  method NormalizeRuntime(given: Runtime) returns (r: Result<Runtime>)
    ensures r == NormalRuntime(given)
  {
    var cfg := given.(image := Trim(given.image), mode := Folded(given.mode));
    if cfg.mode == "" { cfg := cfg.(mode := "per-user"); }
    if cfg.mode != "per-user" { return Err(ModeUnsupported); }
    cfg := cfg.(expose := Folded(given.expose));
    if cfg.expose == "" { cfg := cfg.(expose := "http"); }
    if cfg.expose !in PROTOCOLS { return Err(ExposeUnsupported); }
    if cfg.image == "" { return Err(ImageMissing); }
    if cfg.port <= 0 { return Err(PortNotPositive); }
    if cfg.ttl <= 0 { return Err(TtlNotPositive); }
    if cfg.memory <= 0 { cfg := cfg.(memory := 256); }
    if cfg.cpu <= 0 { cfg := cfg.(cpu := 500); }
    if cfg.maxRenew < 0 { return Err(RenewalsNegative); }
    if cfg.maxActive < 0 { return Err(CapacityNegative); }
    if cfg.cooldown < 0 { return Err(CooldownNegative); }
    return Ok(cfg.(enabled := true));
  }

  // Every attachment is trimmed in place before it is checked.
  method NormalizeAttachments(given: seq<Attachment>) returns (r: Result<seq<Attachment>>)
    ensures r == NormalAttachments(given, 0)
  {
    var items := given;
    var i := 0;
    PrefixNone(NormalAttachments(given, 0));
    while i < |items|
      invariant i <= |items| == |given|
      invariant forall j | i <= j < |items| :: items[j] == given[j]
      invariant NormalAttachments(given, 0) == Prefixed(items[..i], NormalAttachments(given, i))
    {
      PrefixMore(items[..i], TrimmedAttachment(given[i]), NormalAttachments(given, i + 1));
      ghost var done := items[..i];
      items := items[i := TrimmedAttachment(items[i])];
      assert items[..i + 1] == done + [TrimmedAttachment(given[i])];
      if items[i].filename == "" { return Err(FilenameMissing(i)); }
      if items[i].source == "" { return Err(SourceMissing(i)); }
      i := i + 1;
    }
    assert items[..i] + [] == items;
    return Ok(items);
  }

  lemma PrefixNone(r: Result<seq<Attachment>>)
    ensures Prefixed([], r) == r
  {
    if r.Ok? { assert [] + r.value == r.value; }
  }

  lemma PrefixMore(first: seq<Attachment>, next: Attachment, r: Result<seq<Attachment>>)
    ensures Prefixed(first, Prefixed([next], r)) == Prefixed(first + [next], r)
  {
    if r.Ok? { assert first + ([next] + r.value) == first + [next] + r.value; }
  }

  // parseSpec
  method ParseSpec(s: Scan, compiles: string -> bool) returns (r: Result<Challenge>)
    ensures r == Parse(s, compiles)
  {
    var reader := new Reader();
    var n := 0;
    while n < |s.lines|
      invariant n <= |s.lines| && fresh(reader) && reader.Valid() && Opened(reader.State())
      invariant ReadLines(START, s.lines) == ReadLines(reader.State(), s.lines[n..])
    {
      assert s.lines[n..][1..] == s.lines[n + 1..];
      var failure := reader.ReadLine(s.lines[n]);
      if failure.Some? { return Err(failure.value); }
      n := n + 1;
    }
    if s.tooLong { return Err(LineTooLong); }
    r := NormalizeSpec(reader.Draft(), compiles);
  }
}
