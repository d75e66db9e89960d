/**
 Parsing and validating a fenced plan (packages/agent/src/agent-output-parser.ts).
 */
module OutputParser {
  import opened Prelude
  import opened Utf16
  import opened Json
  import opened AgentJson
  import opened JsonRepair
  import opened OutputSchema

  datatype Risk = Low | Medium | High

  datatype Step = Step(title: Text, rationale: Text, risk: Risk)

  datatype Action =
    | FilePatch(path: Text, patch: Text, rationale: Text)
    | FileDelete(path: Text, rationale: Text)
    | FileWrite(path: Text, before: Option<Text>, after: Text, rationale: Text)
    | Shell(command: Text, args: Option<seq<Text>>, rationale: Text)

  datatype Check = Check(command: Text, reason: Text)

  datatype Plan = Plan(
    summary: Text, assumptions: seq<Text>, steps: seq<Step>, actions: seq<Action>,
    checks: seq<Check>, questions: seq<Text>)

  /** Why a plan was refused, with the index of the offending entry. */
  datatype Reason =
    | NoFencedBlock
    | JsonError
    | NotAnObject
    | BadSummary
    | BadAssumptions
    | BadSteps
    | BadStep(index: nat)
    | BadActions
    | BadAction(index: nat)
    | BadChecks
    | BadCheck(index: nat)
    | BadQuestions

  predicate IsText(v: Option<Value>) {
    v.Some? && v.value.Str?
  }

  predicate IsNonBlank(v: Option<Value>) {
    IsText(v) && Trim(v.value.s) != []
  }

  predicate IsNonEmpty(v: Option<Value>) {
    IsText(v) && v.value.s != []
  }

  predicate IsStringArray(v: Value) {
    v.Arr? && forall i :: 0 <= i < |v.items| ==> v.items[i].Str?
  }

  function Strings(items: seq<Value>): (r: seq<Text>)
    requires forall i :: 0 <= i < |items| ==> items[i].Str?
    ensures |r| == |items|
    ensures forall i :: 0 <= i < |r| ==> r[i] == items[i].s
  {
    seq(|items|, i requires 0 <= i < |items| => items[i].s)
  }

  /** `value.key ?? []`. */
  function OrEmpty(v: Option<Value>): Value {
    if v.None? || v.value.Null? then Arr([]) else v.value
  }

  function RiskOf(v: Option<Value>): Option<Risk> {
    if v == Some(Str(Lit("low"))) then Some(Low)
    else if v == Some(Str(Lit("medium"))) then Some(Medium)
    else if v == Some(Str(Lit("high"))) then Some(High)
    else None
  }

  function ValidStep(v: Value, i: nat): Result<Step, Reason> {
    if v.Obj? && IsNonEmpty(Get(v.fields, "title")) && IsText(Get(v.fields, "rationale")) &&
       RiskOf(Get(v.fields, "risk")).Some?
    then Ok(Step(Get(v.fields, "title").value.s, Get(v.fields, "rationale").value.s, RiskOf(Get(v.fields, "risk")).value))
    else Err(BadStep(i))
  }

  function ValidCheck(v: Value, i: nat): Result<Check, Reason> {
    if v.Obj? && IsNonBlank(Get(v.fields, "command")) && IsText(Get(v.fields, "reason"))
    then Ok(Check(Get(v.fields, "command").value.s, Get(v.fields, "reason").value.s))
    else Err(BadCheck(i))
  }

  /** validateProposedAction. */
  function ValidAction(v: Value, i: nat): Result<Action, Reason> {
    if !v.Obj? then Err(BadAction(i))
    else
      var f := v.fields;
      var tag := Get(f, "type");
      if !IsText(Get(f, "rationale")) then Err(BadAction(i))
      else
        var rationale := Get(f, "rationale").value.s;
        if tag == Some(Str(Lit("file_delete"))) then
          if IsNonBlank(Get(f, "path")) then Ok(FileDelete(Get(f, "path").value.s, rationale)) else Err(BadAction(i))
        else if tag == Some(Str(Lit("file_patch"))) then
          if IsNonEmpty(Get(f, "path")) && IsNonBlank(Get(f, "patch"))
          then Ok(FilePatch(Get(f, "path").value.s, Get(f, "patch").value.s, rationale))
          else Err(BadAction(i))
        else if tag == Some(Str(Lit("file_write"))) then
          if IsNonEmpty(Get(f, "path")) && IsText(Get(f, "after")) then
            var before := if IsText(Get(f, "before")) then Some(Get(f, "before").value.s) else None;
            Ok(FileWrite(Get(f, "path").value.s, before, Get(f, "after").value.s, rationale))
          else Err(BadAction(i))
        else if tag == Some(Str(Lit("shell"))) then
          var args := Get(f, "args");
          if IsNonBlank(Get(f, "command")) && (args.None? || IsStringArray(args.value)) then
            Ok(Shell(Get(f, "command").value.s, if args.Some? then Some(Strings(args.value.items)) else None, rationale))
          else Err(BadAction(i))
        else Err(BadAction(i))
  }

  /** The entries from index `i` on, or the first refusal among them. */
  function ValidFrom<T>(valid: (Value, nat) -> Result<T, Reason>, items: seq<Value>, i: nat): Result<seq<T>, Reason>
    requires i <= |items|
    decreases |items| - i
  {
    if i == |items| then Ok([])
    else
      match valid(items[i], i)
      case Err(e) => Err(e)
      case Ok(x) =>
        match ValidFrom(valid, items, i + 1)
        case Err(e) => Err(e)
        case Ok(rest) => Ok([x] + rest)
  }

  /** `out` are the entries before `i`; what remains decides the outcome. */
  ghost predicate Continues<T>(valid: (Value, nat) -> Result<T, Reason>, items: seq<Value>, i: nat, out: seq<T>) {
    && i <= |items|
    && ValidFrom(valid, items, 0) ==
       match ValidFrom(valid, items, i)
       case Err(e) => Err(e)
       case Ok(rest) => Ok(out + rest)
  }

  /** validateAgentPlan as a function of the parsed value. */
  function ValidPlan(v: Value): Result<Plan, Reason> {
    if !v.Obj? then Err(NotAnObject)
    else
      var f := v.fields;
      var assumptions, steps := OrEmpty(Get(f, "assumptions")), OrEmpty(Get(f, "steps"));
      var actions, checks := OrEmpty(Get(f, "proposedActions")), OrEmpty(Get(f, "suggestedQualityChecks"));
      if !IsNonBlank(Get(f, "summary")) then Err(BadSummary)
      else if !IsStringArray(assumptions) then Err(BadAssumptions)
      else if !steps.Arr? then Err(BadSteps)
      else
        match ValidFrom(ValidStep, steps.items, 0)
        case Err(e) => Err(e)
        case Ok(stepsOut) =>
          if !actions.Arr? then Err(BadActions)
          else
            match ValidFrom(ValidAction, actions.items, 0)
            case Err(e) => Err(e)
            case Ok(actionsOut) =>
              if !checks.Arr? then Err(BadChecks)
              else
                match ValidFrom(ValidCheck, checks.items, 0)
                case Err(e) => Err(e)
                case Ok(checksOut) =>
                  if !IsStringArray(OrEmpty(Get(f, "questions"))) then Err(BadQuestions)
                  else
                    Ok(Plan(Get(f, "summary").value.s, Strings(assumptions.items), stepsOut, actionsOut, checksOut, []))
  }

  lemma ContinuesStart<T>(valid: (Value, nat) -> Result<T, Reason>, items: seq<Value>)
    ensures Continues(valid, items, 0, [])
  {
    match ValidFrom(valid, items, 0) {
      case Err(_) =>
      case Ok(rest) => assert [] + rest == rest;
    }
  }

  lemma ContinuesStep<T>(valid: (Value, nat) -> Result<T, Reason>, items: seq<Value>, i: nat, out: seq<T>)
    requires i < |items| && Continues(valid, items, i, out)
    ensures match valid(items[i], i)
            case Err(e) => ValidFrom(valid, items, 0) == Err(e)
            case Ok(x) => Continues(valid, items, i + 1, out + [x])
  {
    if valid(items[i], i).Ok? && ValidFrom(valid, items, i + 1).Ok? {
      var x, rest := valid(items[i], i).value, ValidFrom(valid, items, i + 1).value;
      assert out + ([x] + rest) == out + [x] + rest;
    }
  }

  /** validateAgentPlan. */
  method ValidateAgentPlan(v: Value) returns (r: Result<Plan, Reason>)
    ensures r == ValidPlan(v)
  {
    if !v.Obj? {
      return Err(NotAnObject);
    }
    var f := v.fields;
    var summary := Get(f, "summary");
    if !IsNonBlank(summary) {
      return Err(BadSummary);
    }
    var assumptions := OrEmpty(Get(f, "assumptions"));
    if !IsStringArray(assumptions) {
      return Err(BadAssumptions);
    }
    var steps := OrEmpty(Get(f, "steps"));
    if !steps.Arr? {
      return Err(BadSteps);
    }
    var stepsOut: seq<Step> := [];
    ContinuesStart(ValidStep, steps.items);
    for i := 0 to |steps.items|
      invariant Continues(ValidStep, steps.items, i, stepsOut)
    {
      ContinuesStep(ValidStep, steps.items, i, stepsOut);
      var step := ValidStep(steps.items[i], i);
      if step.Err? {
        return Err(step.error);
      }
      stepsOut := stepsOut + [step.value];
    }
    assert stepsOut + [] == stepsOut;
    var proposedRaw := OrEmpty(Get(f, "proposedActions"));
    if !proposedRaw.Arr? {
      return Err(BadActions);
    }
    var proposedOut: seq<Action> := [];
    ContinuesStart(ValidAction, proposedRaw.items);
    for i := 0 to |proposedRaw.items|
      invariant Continues(ValidAction, proposedRaw.items, i, proposedOut)
    {
      ContinuesStep(ValidAction, proposedRaw.items, i, proposedOut);
      var action := ValidAction(proposedRaw.items[i], i);
      if action.Err? {
        return Err(action.error);
      }
      proposedOut := proposedOut + [action.value];
    }
    assert proposedOut + [] == proposedOut;
    var checksRaw := OrEmpty(Get(f, "suggestedQualityChecks"));
    if !checksRaw.Arr? {
      return Err(BadChecks);
    }
    var checksOut: seq<Check> := [];
    ContinuesStart(ValidCheck, checksRaw.items);
    for i := 0 to |checksRaw.items|
      invariant Continues(ValidCheck, checksRaw.items, i, checksOut)
    {
      ContinuesStep(ValidCheck, checksRaw.items, i, checksOut);
      var check := ValidCheck(checksRaw.items[i], i);
      if check.Err? {
        return Err(check.error);
      }
      checksOut := checksOut + [check.value];
    }
    assert checksOut + [] == checksOut;
    if !IsStringArray(OrEmpty(Get(f, "questions"))) {
      return Err(BadQuestions);
    }
    return Ok(Plan(summary.value.s, Strings(assumptions.items), stepsOut, proposedOut, checksOut, []));
  }

  // ---------------------------------------------------------------- redaction

  type Redactor = Text -> Text

  function Mapped<S, T>(f: S -> T, xs: seq<S>): (r: seq<T>)
    ensures |r| == |xs|
    ensures forall i :: 0 <= i < |r| ==> r[i] == f(xs[i])
  {
    seq(|xs|, i requires 0 <= i < |xs| => f(xs[i]))
  }

  function RedactPlan(p: Plan, redact: Redactor): Plan {
    p.(
      summary := redact(p.summary),
      assumptions := Mapped(redact, p.assumptions),
      steps := Mapped((s: Step) => s.(title := redact(s.title), rationale := redact(s.rationale)), p.steps),
      actions := Mapped((a: Action) => a.(rationale := redact(a.rationale)), p.actions),
      checks := Mapped((c: Check) => c.(reason := redact(c.reason)), p.checks))
  }

  // ---------------------------------------------------------------- what acceptance means

  lemma {:induction false} ValidEach<T>(valid: (Value, nat) -> Result<T, Reason>, items: seq<Value>, i: nat)
    requires i <= |items| && ValidFrom(valid, items, i).Ok?
    ensures var out := ValidFrom(valid, items, i).value;
            |out| == |items| - i && forall j :: i <= j < |items| ==> valid(items[j], j) == Ok(out[j - i])
    decreases |items| - i
  {
    if i < |items| {
      ValidEach(valid, items, i + 1);
    }
  }

  predicate Executable(a: Action) {
    match a
    case FilePatch(path, patch, _) => path != [] && Trim(patch) != []
    case FileDelete(path, _) => Trim(path) != []
    case FileWrite(path, _, _, _) => path != []
    case Shell(command, _, _) => Trim(command) != []
  }

  lemma EntriesUsable(v: Value, i: nat)
    ensures ValidStep(v, i).Ok? ==> ValidStep(v, i).value.title != []
    ensures ValidAction(v, i).Ok? ==> Executable(ValidAction(v, i).value)
    ensures ValidCheck(v, i).Ok? ==> Trim(ValidCheck(v, i).value.command) != []
  {
    hide Trim, Get;
  }

  /**
   Whatever the model wrote, an accepted plan has a summary and titles, names what it would
   change or run, and asks no questions; one entry of the input gives one entry of the plan.
   */
  lemma AcceptedPlan(v: Value)
    requires ValidPlan(v).Ok?
    ensures var p := ValidPlan(v).value;
            && Trim(p.summary) != [] && p.questions == []
            && (forall i :: 0 <= i < |p.steps| ==> p.steps[i].title != [])
            && (forall i :: 0 <= i < |p.actions| ==> Executable(p.actions[i]))
            && (forall i :: 0 <= i < |p.checks| ==> Trim(p.checks[i].command) != [])
            && |p.assumptions| == |OrEmpty(Get(v.fields, "assumptions")).items|
            && |p.steps| == |OrEmpty(Get(v.fields, "steps")).items|
            && |p.actions| == |OrEmpty(Get(v.fields, "proposedActions")).items|
            && |p.checks| == |OrEmpty(Get(v.fields, "suggestedQualityChecks")).items|
  {
    hide Trim, ValidFrom, ValidStep, ValidAction, ValidCheck, Executable, Get;
    var f, p := v.fields, ValidPlan(v).value;
    var steps, actions := OrEmpty(Get(f, "steps")).items, OrEmpty(Get(f, "proposedActions")).items;
    var checks := OrEmpty(Get(f, "suggestedQualityChecks")).items;
    ValidEach(ValidStep, steps, 0);
    ValidEach(ValidAction, actions, 0);
    ValidEach(ValidCheck, checks, 0);
    forall i | 0 <= i < |p.steps| ensures p.steps[i].title != [] {
      assert ValidStep(steps[i], i) == Ok(p.steps[i]);
      EntriesUsable(steps[i], i);
    }
    forall i | 0 <= i < |p.actions| ensures Executable(p.actions[i]) {
      assert ValidAction(actions[i], i) == Ok(p.actions[i]);
      EntriesUsable(actions[i], i);
    }
    forall i | 0 <= i < |p.checks| ensures Trim(p.checks[i].command) != [] {
      assert ValidCheck(checks[i], i) == Ok(p.checks[i]);
      EntriesUsable(checks[i], i);
    }
  }

  // ---------------------------------------------------------------- the parser

  /** parseAgentPlan as a function: extract, parse, validate, redact. */
  ghost function ParsedPlan(raw: Text, redact: Option<Redactor>, num: Reader): Result<Plan, Reason> {
    match EnvelopeOf(raw)
    case None => Err(NoFencedBlock)
    case Some(e) =>
      if e.json == [] then Err(NoFencedBlock)
      else
        match Parse(e.json, num, true)
        case None => Err(JsonError)
        case Some(v) =>
          match ValidPlan(v)
          case Err(reason) => Err(reason)
          case Ok(p) => Ok(if redact.Some? then RedactPlan(p, redact.value) else p)
  }

  method ParseAgentPlan(raw: Text, redact: Option<Redactor>, num: Reader) returns (r: Result<Plan, Reason>)
    ensures r == ParsedPlan(raw, redact, num)
  {
    var envelope := ExtractAgentPlanEnvelope(raw);
    if envelope.None? || envelope.value.json == [] {
      return Err(NoFencedBlock);
    }
    var parsed := ParseJsonAllowingMultilineStrings(envelope.value.json, num);
    if parsed.None? {
      return Err(JsonError);
    }
    var validated := ValidateAgentPlan(parsed.value);
    if validated.Err? {
      return validated;
    }
    return Ok(if redact.Some? then RedactPlan(validated.value, redact.value) else validated.value);
  }
}
