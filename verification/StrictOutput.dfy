/**
 The strict-output path end to end (packages/agent/src/agent-output-schema.ts).
 */
module StrictOutput {
  import opened Prelude
  import opened Utf16
  import opened Json
  import opened JsonRoundTrip
  import opened AgentJson
  import opened OutputSchema
  import opened OutputParser
  import opened PrintedFence

  // Whatever the contract schema accepts is printed as a fence from which extraction, parsing and
  // validation recover exactly that plan.

  // ---------------------------------------------------------------- what a wire value says

  predicate Says(f: seq<Field>, key: string, t: Text) {
    Get(f, key) == Some(Str(t))
  }

  predicate SaysAll(f: seq<Field>, key: string, ts: seq<Text>) {
    match Get(f, key)
    case Some(Arr(items)) => |items| == |ts| && forall i :: 0 <= i < |ts| ==> items[i] == Str(ts[i])
    case _ => false
  }

  function RiskName(r: Risk): Text {
    match r
    case Low => Lit("low")
    case Medium => Lit("medium")
    case High => Lit("high")
  }

  predicate DenotesStep(s: Step, v: Value) {
    v.Obj? && Says(v.fields, "title", s.title) && Says(v.fields, "rationale", s.rationale) &&
    Says(v.fields, "risk", RiskName(s.risk))
  }

  predicate DenotesCheck(c: Check, v: Value) {
    v.Obj? && Says(v.fields, "command", c.command) && Says(v.fields, "reason", c.reason)
  }

  predicate DenotesAction(a: Action, v: Value) {
    v.Obj? && Says(v.fields, "rationale", a.rationale) &&
    match a
    case FilePatch(path, patch, _) =>
      Says(v.fields, "type", Lit("file_patch")) && Says(v.fields, "path", path) && Says(v.fields, "patch", patch)
    case FileDelete(path, _) =>
      Says(v.fields, "type", Lit("file_delete")) && Says(v.fields, "path", path)
    case FileWrite(path, before, after, _) =>
      && Says(v.fields, "type", Lit("file_write")) && Says(v.fields, "path", path)
      && Get(v.fields, "before") == Some(if before.Some? then Str(before.value) else Null)
      && Says(v.fields, "after", after)
    case Shell(command, args, _) =>
      && Says(v.fields, "type", Lit("shell")) && Says(v.fields, "command", command)
      && args.Some? && SaysAll(v.fields, "args", args.value)
  }

  /** Field by field, the plan is the wire value without its version and intent. */
  predicate Denotes(p: Plan, f: seq<Field>) {
    && Says(f, "summary", p.summary)
    && SaysAll(f, "assumptions", p.assumptions)
    && (match Get(f, "steps")
        case Some(Arr(items)) => |items| == |p.steps| && forall i :: 0 <= i < |items| ==> DenotesStep(p.steps[i], items[i])
        case _ => false)
    && (match Get(f, "proposedActions")
        case Some(Arr(items)) => |items| == |p.actions| && forall i :: 0 <= i < |items| ==> DenotesAction(p.actions[i], items[i])
        case _ => false)
    && (match Get(f, "suggestedQualityChecks")
        case Some(Arr(items)) => |items| == |p.checks| && forall i :: 0 <= i < |items| ==> DenotesCheck(p.checks[i], items[i])
        case _ => false)
    && SaysAll(f, "questions", p.questions)
  }

  /** What a contract permits. */
  predicate Permitted(c: Contract, p: Plan) {
    && (c.readOnly ==> p.actions == [] && p.checks == [])
    && (c.searchForbidden ==> p.checks == [] && forall i :: 0 <= i < |p.actions| ==> !p.actions[i].Shell?)
    && p.questions == []
  }

  // ---------------------------------------------------------------- what the schema accepts

  predicate DistinctProperties(ps: seq<Property>) {
    forall i, j :: 0 <= i < j < |ps| ==> ps[i].key != ps[j].key
  }

  /** No integer is asked for, and no property twice. */
  predicate Plain(schema: Schema) {
    match schema
    case IntegerSchema(_) => false
    case AnyOf(branches) => forall i :: 0 <= i < |branches| ==> Plain(branches[i])
    case ArraySchema(items, _) => Plain(items)
    case ObjectSchema(ps) => DistinctProperties(ps) && forall i :: 0 <= i < |ps| ==> Plain(ps[i].schema)
    case _ => true
  }

  lemma {:induction false} DistinctCount(ks: seq<Text>)
    requires forall i, j :: 0 <= i < j < |ks| ==> ks[i] != ks[j]
    ensures |set k | k in ks| == |ks|
  {
    if ks != [] {
      var front, last := ks[..|ks| - 1], ks[|ks| - 1];
      DistinctCount(front);
      assert (set k | k in ks) == (set k | k in front) + {last};
    }
  }

  lemma SubsetSameSize(a: set<Text>, b: set<Text>)
    requires a <= b && |a| == |b|
    ensures a == b
  {
    assert b == a + (b - a);
    assert |b - a| == 0;
  }

  /** As many fields as required properties, all of them present: no others are. */
  lemma NoOtherKeys(fields: seq<Field>, ps: seq<Property>, i: nat)
    requires DistinctKeys(fields) && DistinctProperties(ps) && |fields| == |ps| && i < |fields|
    requires forall j :: 0 <= j < |ps| ==> HasKey(fields, ps[j].key)
    ensures exists j :: 0 <= j < |ps| && ps[j].key == fields[i].key
  {
    var have := seq(|fields|, k requires 0 <= k < |fields| => fields[k].key);
    var want := seq(|ps|, k requires 0 <= k < |ps| => ps[k].key);
    DistinctCount(have);
    DistinctCount(want);
    var haveSet, wantSet := set k | k in have, set k | k in want;
    forall k | k in wantSet ensures k in haveSet {
      var j :| 0 <= j < |want| && want[j] == k;
      assert HasKey(fields, ps[j].key);
      assert have[IndexOf(fields, k)] == k;
    }
    SubsetSameSize(wantSet, haveSet);
    assert have[i] in haveSet;
    var j :| 0 <= j < |want| && want[j] == fields[i].key;
    assert ps[j].key == fields[i].key;
  }

  lemma LookupAt(fields: seq<Field>, i: nat)
    requires DistinctKeys(fields) && i < |fields|
    ensures Lookup(fields, fields[i].key) == Some(fields[i].value)
  {
    assert forall j :: 0 <= j < i ==> fields[j].key != fields[i].key;
  }

  lemma {:induction false} MatchedNumberless(schema: Schema, v: Value)
    requires Plain(schema) && Proper(v) && Matches(schema, v)
    ensures Numberless(v)
    decreases schema
  {
    match schema {
      case AnyOf(branches) =>
        var i :| 0 <= i < |branches| && Matches(branches[i], v);
        MatchedNumberless(branches[i], v);
      case ArraySchema(items, _) =>
        forall i | 0 <= i < |v.items| ensures Numberless(v.items[i]) {
          MatchedNumberless(items, v.items[i]);
        }
      case ObjectSchema(ps) =>
        forall i | 0 <= i < |v.fields| ensures Numberless(v.fields[i].value) {
          NoOtherKeys(v.fields, ps, i);
          var j :| 0 <= j < |ps| && ps[j].key == v.fields[i].key;
          LookupAt(v.fields, i);
          MatchedNumberless(ps[j].schema, v.fields[i].value);
        }
      case _ =>
    }
  }

  lemma LiteralsDiffer()
    ensures Lit("type") != Lit("path") && Lit("args") != Lit("path") && Lit("args") != Lit("type")
    ensures Lit("file_patch") != Lit("file_write")
    ensures Lit("patch") != Lit("after")
  {
    assert Lit("type")[0] != Lit("path")[0];
    assert Lit("args")[0] != Lit("path")[0];
    assert Lit("args")[0] != Lit("type")[0];
    assert Lit("file_patch")[5] != Lit("file_write")[5];
    assert Lit("patch")[0] != Lit("after")[0];
  }

  lemma PlainPatch()
    ensures Plain(PatchSchema()) && Plain(DeleteSchema())
  {
    LiteralsDiffer();
  }

  lemma PlainWrite()
    ensures Plain(WriteSchema())
  {
    LiteralsDiffer();
    assert Plain(AnyOf([TEXT, NullSchema]));
  }

  lemma PlainShell()
    ensures Plain(ShellSchema())
  {
    LiteralsDiffer();
  }

  lemma PlainActions(schemas: seq<Schema>)
    requires forall i :: 0 <= i < |schemas| ==> schemas[i] in {PatchSchema(), DeleteSchema(), WriteSchema(), ShellSchema()}
    ensures Plain(AnyOf(schemas))
  {
    PlainPatch();
    PlainWrite();
    PlainShell();
  }

  lemma PlainParts(c: Contract)
    ensures Plain(STRINGS) && Plain(StepSchema()) && Plain(CheckSchema())
    ensures Plain(AnyOf(ActionSchemas(c)))
  {
    PlainActions(ActionSchemas(c));
  }

  /** The value of a required property matches its schema. */
  lemma MatchedProperty(ps: seq<Property>, v: Value, i: nat)
    requires Matches(ObjectSchema(ps), v) && i < |ps|
    ensures v.Obj? && HasKey(v.fields, ps[i].key) && Matches(ps[i].schema, Lookup(v.fields, ps[i].key).value)
  {
  }

  /** The members of an accepted wire value, each against its own schema. */
  lemma MatchedMembers(c: Contract, f: seq<Field>)
    requires Matches(Build(c), Obj(f))
    ensures forall k :: k in {"summary", "assumptions", "steps", "proposedActions", "suggestedQualityChecks", "questions"} ==>
              Get(f, k) == Some(Member(f, k))
    ensures Matches(NONEMPTY, Member(f, "summary"))
    ensures Matches(STRINGS, Member(f, "assumptions"))
    ensures Matches(ArraySchema(StepSchema(), None), Member(f, "steps"))
    ensures Matches(ActionsSchema(c), Member(f, "proposedActions"))
    ensures Matches(ChecksSchema(c), Member(f, "suggestedQualityChecks"))
    ensures Matches(ArraySchema(TEXT, Some(0)), Member(f, "questions"))
  {
    var ps := Build(c).properties;
    MatchedProperty(ps, Obj(f), 2);
    MatchedProperty(ps, Obj(f), 3);
    MatchedProperty(ps, Obj(f), 4);
    MatchedProperty(ps, Obj(f), 5);
    MatchedProperty(ps, Obj(f), 6);
    MatchedProperty(ps, Obj(f), 7);
  }

  lemma {:induction false} WithoutDistinct(fields: seq<Field>, key: Text)
    requires DistinctKeys(fields)
    ensures DistinctKeys(Without(fields, key))
  {
    if fields != [] {
      var rest := Without(fields[1..], key);
      WithoutDistinct(fields[1..], key);
      forall j | 0 <= j < |rest| ensures rest[j].key != fields[0].key {
        assert rest[j] in rest;
        var k :| 0 <= k < |fields[1..]| && fields[1..][k] == rest[j];
        assert fields[k + 1] == rest[j];
      }
    }
  }

  lemma LookupCons(f: Field, rest: seq<Field>, k: Text)
    ensures Lookup([f] + rest, k) == if f.key == k then Some(f.value) else Lookup(rest, k)
  {
    var all := [f] + rest;
    assert all[1..] == rest;
    assert all[0] == f;
  }

  lemma {:induction false} WithoutLookup(fields: seq<Field>, key: Text, k: Text)
    ensures Lookup(Without(fields, key), k) == if k == key then None else Lookup(fields, k)
  {
    if fields != [] {
      var rest := fields[1..];
      WithoutLookup(rest, key, k);
      assert fields == [fields[0]] + rest;
      LookupCons(fields[0], rest, k);
      if fields[0].key == key {
        assert Without(fields, key) == Without(rest, key);
      } else {
        LookupCons(fields[0], Without(rest, key), k);
      }
    }
  }

  lemma DroppedProper(v: Value)
    requires Proper(v)
    ensures Proper(DropNullBefore(v))
    ensures Numberless(v) ==> Numberless(DropNullBefore(v))
  {
    if v.Obj? {
      var rest := Without(v.fields, Lit("before"));
      WithoutDistinct(v.fields, Lit("before"));
      forall i | 0 <= i < |rest| ensures Proper(rest[i].value) && (Numberless(v) ==> Numberless(rest[i].value)) {
        assert rest[i] in v.fields;
      }
    }
  }

  lemma TrimBlank(t: Text)
    ensures Trim(t) == [] <==> Blank(t)
  {
    if !Blank(t) {
      TrimEndNonEmpty(TrimStart(t));
    }
  }

  lemma {:induction false} TrimEndNonEmpty(t: Text)
    requires t != [] && !IsSpace(t[0])
    ensures TrimEnd(t) != []
  {
    if IsSpace(t[|t| - 1]) {
      TrimEndNonEmpty(t[..|t| - 1]);
    }
  }

  lemma NonEmptyMatched(v: Value)
    requires Matches(NONEMPTY, v)
    ensures v.Str? && IsNonBlank(Some(v)) && IsNonEmpty(Some(v))
  {
    TrimBlank(v.s);
  }

  lemma StepAccepted(v: Value, i: nat)
    requires Matches(StepSchema(), v)
    ensures ValidStep(v, i).Ok? && DenotesStep(ValidStep(v, i).value, v)
  {
    var ps := StepSchema().properties;
    MatchedProperty(ps, v, 0);
    MatchedProperty(ps, v, 1);
    MatchedProperty(ps, v, 2);
    NonEmptyMatched(Get(v.fields, "title").value);
  }

  lemma CheckAccepted(v: Value, i: nat)
    requires Matches(CheckSchema(), v)
    ensures ValidCheck(v, i).Ok? && DenotesCheck(ValidCheck(v, i).value, v)
  {
    var ps := CheckSchema().properties;
    MatchedProperty(ps, v, 0);
    MatchedProperty(ps, v, 1);
    NonEmptyMatched(Get(v.fields, "command").value);
  }

  lemma PatchAccepted(v: Value, i: nat)
    requires Matches(PatchSchema(), v)
    ensures DropNullBefore(v) == v
    ensures ValidAction(v, i).Ok? && DenotesAction(ValidAction(v, i).value, v) && ValidAction(v, i).value.FilePatch?
  {
    var ps := PatchSchema().properties;
    MatchedProperty(ps, v, 0);
    MatchedProperty(ps, v, 1);
    MatchedProperty(ps, v, 2);
    MatchedProperty(ps, v, 3);
    NonEmptyMatched(Get(v.fields, "path").value);
    NonEmptyMatched(Get(v.fields, "patch").value);
    LiteralsDiffer();
  }

  lemma DeleteAccepted(v: Value, i: nat)
    requires Matches(DeleteSchema(), v)
    ensures DropNullBefore(v) == v
    ensures ValidAction(v, i).Ok? && DenotesAction(ValidAction(v, i).value, v) && ValidAction(v, i).value.FileDelete?
  {
    var ps := DeleteSchema().properties;
    MatchedProperty(ps, v, 0);
    MatchedProperty(ps, v, 1);
    MatchedProperty(ps, v, 2);
    NonEmptyMatched(Get(v.fields, "path").value);
  }

  lemma ShellAccepted(v: Value, i: nat)
    requires Matches(ShellSchema(), v)
    ensures DropNullBefore(v) == v
    ensures ValidAction(v, i).Ok? && DenotesAction(ValidAction(v, i).value, v) && ValidAction(v, i).value.Shell?
  {
    var ps := ShellSchema().properties;
    MatchedProperty(ps, v, 0);
    MatchedProperty(ps, v, 1);
    MatchedProperty(ps, v, 2);
    MatchedProperty(ps, v, 3);
    NonEmptyMatched(Get(v.fields, "command").value);
  }

  lemma WriteMembers(v: Value)
    requires Matches(WriteSchema(), v)
    ensures v.Obj? && Says(v.fields, "type", Lit("file_write"))
    ensures IsNonEmpty(Get(v.fields, "path")) && IsText(Get(v.fields, "after")) && IsText(Get(v.fields, "rationale"))
    ensures Get(v.fields, "before") == Some(Null) || IsText(Get(v.fields, "before"))
  {
    var ps := WriteSchema().properties;
    MatchedProperty(ps, v, 0);
    MatchedProperty(ps, v, 1);
    MatchedProperty(ps, v, 2);
    MatchedProperty(ps, v, 3);
    MatchedProperty(ps, v, 4);
    NonEmptyMatched(Get(v.fields, "path").value);
    var branch := Get(v.fields, "before").value;
    assert branch.Str? || branch.Null?;
  }

  /** Dropping `before` hides nothing else. */
  lemma {:induction false} WriteDropped(f: seq<Field>)
    ensures var g := Without(f, Lit("before"));
            && Get(g, "type") == Get(f, "type") && Get(g, "path") == Get(f, "path")
            && Get(g, "after") == Get(f, "after") && Get(g, "rationale") == Get(f, "rationale")
            && Get(g, "before") == None
  {
    var before := Lit("before");
    WithoutLookup(f, before, Lit("type"));
    WithoutLookup(f, before, Lit("path"));
    WithoutLookup(f, before, Lit("after"));
    WithoutLookup(f, before, Lit("rationale"));
    WithoutLookup(f, before, before);
    assert |Lit("type")| == 4 && |Lit("path")| == 4 && |Lit("after")| == 5 && |Lit("rationale")| == 9 && |before| == 6;
  }

  lemma WriteValid(f: seq<Field>, i: nat)
    requires Says(f, "type", Lit("file_write"))
    requires IsNonEmpty(Get(f, "path")) && IsText(Get(f, "after")) && IsText(Get(f, "rationale"))
    ensures ValidAction(Obj(f), i) == Ok(FileWrite(
              Get(f, "path").value.s,
              if IsText(Get(f, "before")) then Some(Get(f, "before").value.s) else None,
              Get(f, "after").value.s, Get(f, "rationale").value.s))
  {
    LiteralsDiffer();
    assert |Lit("file_delete")| == 11 && |Lit("file_write")| == 10;
  }

  lemma {:induction false} WriteAccepted(v: Value, i: nat)
    requires Matches(WriteSchema(), v)
    ensures var r := ValidAction(DropNullBefore(v), i);
            r.Ok? && DenotesAction(r.value, v) && r.value.FileWrite?
  {
    WriteMembers(v);
    WriteDropped(v.fields);
    if Get(v.fields, "before") == Some(Null) {
      WriteValid(Without(v.fields, Lit("before")), i);
    } else {
      WriteValid(v.fields, i);
    }
  }

  /** Every action the schema accepts is validated as the action it denotes. */
  lemma {:induction false} ActionAccepted(c: Contract, v: Value, i: nat)
    requires Matches(AnyOf(ActionSchemas(c)), v)
    ensures var r := ValidAction(DropNullBefore(v), i);
            r.Ok? && DenotesAction(r.value, v) && (c.searchForbidden ==> !r.value.Shell?)
  {
    var k :| 0 <= k < |ActionSchemas(c)| && Matches(ActionSchemas(c)[k], v);
    if k == 0 {
      PatchAccepted(v, i);
    } else if k == 1 {
      DeleteAccepted(v, i);
    } else if k == 2 {
      WriteAccepted(v, i);
    } else {
      ShellAccepted(v, i);
    }
  }

  /** If every entry is valid, so is the array, entry by entry. */
  lemma {:induction false} AllValid<T>(valid: (Value, nat) -> Result<T, Reason>, items: seq<Value>, i: nat)
    requires i <= |items|
    requires forall j :: i <= j < |items| ==> valid(items[j], j).Ok?
    ensures ValidFrom(valid, items, i).Ok?
    ensures var out := ValidFrom(valid, items, i).value;
            |out| == |items| - i && forall j :: i <= j < |items| ==> out[j - i] == valid(items[j], j).value
    decreases |items| - i
  {
    if i < |items| {
      AllValid(valid, items, i + 1);
    }
  }

  /** If a validator accepts every value of a schema, it accepts every array of them. */
  lemma ArrayAccepted<T>(
      schema: Schema, maxItems: Option<nat>, items: seq<Value>, prepared: seq<Value>, prepare: Value -> Value,
      valid: (Value, nat) -> Result<T, Reason>, good: (T, Value) -> bool)
    requires Matches(ArraySchema(schema, maxItems), Arr(items))
    requires |prepared| == |items| && forall i :: 0 <= i < |items| ==> prepared[i] == prepare(items[i])
    requires forall v, i: nat :: Matches(schema, v) ==> valid(prepare(v), i).Ok? && good(valid(prepare(v), i).value, v)
    ensures maxItems == Some(0) ==> items == []
    ensures var r := ValidFrom(valid, prepared, 0);
            r.Ok? && |r.value| == |items| && forall i :: 0 <= i < |items| ==> good(r.value[i], items[i])
  {
    assert forall i :: 0 <= i < |items| ==> Matches(schema, items[i]);
    hide Matches, ValidFrom;
    AllValid(valid, prepared, 0);
  }

  lemma StepsAccepted(items: seq<Value>)
    requires Matches(ArraySchema(StepSchema(), None), Arr(items))
    ensures var r := ValidFrom(ValidStep, items, 0);
            r.Ok? && |r.value| == |items| && forall i :: 0 <= i < |items| ==> DenotesStep(r.value[i], items[i])
  {
    var same := (v: Value) => v;
    forall v, i: nat | Matches(StepSchema(), v)
      ensures ValidStep(same(v), i).Ok? && DenotesStep(ValidStep(same(v), i).value, v)
    {
      StepAccepted(v, i);
    }
    ArrayAccepted(StepSchema(), None, items, items, same, ValidStep, DenotesStep);
  }

  lemma ChecksAccepted(c: Contract, items: seq<Value>)
    requires Matches(ChecksSchema(c), Arr(items))
    ensures var r := ValidFrom(ValidCheck, items, 0);
            r.Ok? && |r.value| == |items| && forall i :: 0 <= i < |items| ==> DenotesCheck(r.value[i], items[i])
    ensures c.readOnly || c.searchForbidden ==> items == []
  {
    var same := (v: Value) => v;
    forall v, i: nat | Matches(CheckSchema(), v)
      ensures ValidCheck(same(v), i).Ok? && DenotesCheck(ValidCheck(same(v), i).value, v)
    {
      CheckAccepted(v, i);
    }
    ArrayAccepted(CheckSchema(), ChecksSchema(c).maxItems, items, items, same, ValidCheck, DenotesCheck);
  }

  /** The action is what the value says, and a contract without search has no shell. */
  predicate GoodAction(c: Contract, a: Action, v: Value) {
    DenotesAction(a, v) && (c.searchForbidden ==> !a.Shell?)
  }

  lemma {:induction false} ActionsAccepted(c: Contract, items: seq<Value>)
    requires Matches(ActionsSchema(c), Arr(items))
    ensures var r := ValidFrom(ValidAction, DropNullBefores(items), 0);
            r.Ok? && |r.value| == |items| && forall i :: 0 <= i < |items| ==> GoodAction(c, r.value[i], items[i])
    ensures c.readOnly ==> items == []
  {
    forall v, i: nat | Matches(AnyOf(ActionSchemas(c)), v)
      ensures ValidAction(DropNullBefore(v), i).Ok? && GoodAction(c, ValidAction(DropNullBefore(v), i).value, v)
    {
      ActionAccepted(c, v, i);
    }
    ArrayAccepted(AnyOf(ActionSchemas(c)), ActionsSchema(c).maxItems, items, DropNullBefores(items),
      DropNullBefore, ValidAction, (a, v) => GoodAction(c, a, v));
  }

  /** The printed plan: its members, and that it can be printed and read back. */
  lemma PlanMembers(wire: seq<Field>)
    ensures var plan := PlanValue(wire).fields;
            && DistinctKeys(plan)
            && Get(plan, "summary") == Some(Member(wire, "summary"))
            && Get(plan, "assumptions") == Some(Member(wire, "assumptions"))
            && Get(plan, "steps") == Some(Member(wire, "steps"))
            && Get(plan, "proposedActions") == Some(plan[3].value)
            && Get(plan, "suggestedQualityChecks") == Some(Member(wire, "suggestedQualityChecks"))
            && Get(plan, "questions") == Some(Member(wire, "questions"))
  {
    var plan := PlanValue(wire).fields;
    assert DistinctKeys(plan);
    LookupAt(plan, 0);
    LookupAt(plan, 1);
    LookupAt(plan, 2);
    LookupAt(plan, 3);
    LookupAt(plan, 4);
    LookupAt(plan, 5);
  }

  lemma MemberProper(f: seq<Field>, key: string)
    requires Proper(Obj(f))
    ensures Proper(Member(f, key))
  {
  }

  lemma MembersPrintable(c: Contract, f: seq<Field>)
    requires Proper(Obj(f)) && Matches(Build(c), Obj(f))
    ensures Numberless(Member(f, "summary")) && Numberless(Member(f, "assumptions"))
    ensures Numberless(Member(f, "steps")) && Numberless(Member(f, "proposedActions"))
    ensures Numberless(Member(f, "suggestedQualityChecks")) && Numberless(Member(f, "questions"))
    ensures Member(f, "proposedActions").Arr?
  {
    MatchedMembers(c, f);
    PlainParts(c);
    MemberPrintable(NONEMPTY, f, "summary");
    MemberPrintable(STRINGS, f, "assumptions");
    MemberPrintable(ArraySchema(StepSchema(), None), f, "steps");
    MemberPrintable(ActionsSchema(c), f, "proposedActions");
    MemberPrintable(ChecksSchema(c), f, "suggestedQualityChecks");
    MemberPrintable(ArraySchema(TEXT, Some(0)), f, "questions");
  }

  lemma MemberPrintable(schema: Schema, f: seq<Field>, key: string)
    requires Proper(Obj(f)) && Plain(schema) && Matches(schema, Member(f, key))
    ensures Numberless(Member(f, key))
  {
    MemberProper(f, key);
    MatchedNumberless(schema, Member(f, key));
  }

  lemma DroppedPrintable(items: seq<Value>)
    requires Proper(Arr(items)) && Numberless(Arr(items))
    ensures Proper(Arr(DropNullBefores(items))) && Numberless(Arr(DropNullBefores(items)))
  {
    forall i | 0 <= i < |items|
      ensures Proper(DropNullBefores(items)[i]) && Numberless(DropNullBefores(items)[i])
    {
      DroppedProper(items[i]);
    }
  }

  lemma PlanPrintable(c: Contract, f: seq<Field>)
    requires Proper(Obj(f)) && Matches(Build(c), Obj(f))
    ensures Proper(PlanValue(f)) && Numberless(PlanValue(f))
  {
    MembersPrintable(c, f);
    MembersProper(f);
    DroppedPrintable(Member(f, "proposedActions").items);
    PlanMembers(f);
    FieldsPrintable(PlanValue(f).fields);
  }

  lemma FieldsPrintable(plan: seq<Field>)
    requires |plan| == 6 && DistinctKeys(plan)
    requires Proper(plan[0].value) && Proper(plan[1].value) && Proper(plan[2].value)
    requires Proper(plan[3].value) && Proper(plan[4].value) && Proper(plan[5].value)
    requires Numberless(plan[0].value) && Numberless(plan[1].value) && Numberless(plan[2].value)
    requires Numberless(plan[3].value) && Numberless(plan[4].value) && Numberless(plan[5].value)
    ensures Proper(Obj(plan)) && Numberless(Obj(plan))
  {
  }

  lemma MembersProper(f: seq<Field>)
    requires Proper(Obj(f))
    ensures Proper(Member(f, "summary")) && Proper(Member(f, "assumptions"))
    ensures Proper(Member(f, "steps")) && Proper(Member(f, "proposedActions"))
    ensures Proper(Member(f, "suggestedQualityChecks")) && Proper(Member(f, "questions"))
  {
    MemberProper(f, "summary");
    MemberProper(f, "assumptions");
    MemberProper(f, "steps");
    MemberProper(f, "proposedActions");
    MemberProper(f, "suggestedQualityChecks");
    MemberProper(f, "questions");
  }

  /** The second validator, given what it needs of each member. */
  lemma ValidPlanOf(
      g: seq<Field>, summary: Text, assumptions: seq<Text>, steps: seq<Value>, actions: seq<Value>, checks: seq<Value>)
    requires Says(g, "summary", summary) && Trim(summary) != []
    requires SaysAll(g, "assumptions", assumptions) && SaysAll(g, "questions", [])
    requires Get(g, "steps") == Some(Arr(steps)) && ValidFrom(ValidStep, steps, 0).Ok?
    requires Get(g, "proposedActions") == Some(Arr(actions)) && ValidFrom(ValidAction, actions, 0).Ok?
    requires Get(g, "suggestedQualityChecks") == Some(Arr(checks)) && ValidFrom(ValidCheck, checks, 0).Ok?
    ensures ValidPlan(Obj(g)) == Ok(Plan(
              summary, assumptions, ValidFrom(ValidStep, steps, 0).value, ValidFrom(ValidAction, actions, 0).value,
              ValidFrom(ValidCheck, checks, 0).value, []))
  {
    assert Strings(Get(g, "assumptions").value.items) == assumptions;
  }

  /** What the schema says of the plain members, without reference to schemas. */
  predicate MatchedKind(f: seq<Field>) {
    && Member(f, "summary").Str? && Trim(Member(f, "summary").s) != []
    && IsStringArray(Member(f, "assumptions")) && Member(f, "questions") == Arr([])
    && Member(f, "steps").Arr? && Member(f, "proposedActions").Arr? && Member(f, "suggestedQualityChecks").Arr?
  }

  lemma MatchedKinds(c: Contract, f: seq<Field>)
    requires Matches(Build(c), Obj(f))
    ensures MatchedKind(f)
  {
    MatchedMembers(c, f);
    NonEmptyMatched(Member(f, "summary"));
  }

  lemma MatchedArrays(c: Contract, f: seq<Field>)
    requires Matches(Build(c), Obj(f))
    ensures Member(f, "steps").Arr? && Matches(ArraySchema(StepSchema(), None), Arr(Member(f, "steps").items))
    ensures Member(f, "proposedActions").Arr? && Matches(ActionsSchema(c), Arr(Member(f, "proposedActions").items))
    ensures Member(f, "suggestedQualityChecks").Arr? && Matches(ChecksSchema(c), Arr(Member(f, "suggestedQualityChecks").items))
  {
    MatchedMembers(c, f);
  }

  /** The members that are arrays of records, read by the second validator. */
  lemma ArraysAgree(c: Contract, f: seq<Field>)
    requires Matches(Build(c), Obj(f))
    ensures Member(f, "steps").Arr? && Member(f, "proposedActions").Arr? && Member(f, "suggestedQualityChecks").Arr?
    ensures var items := Member(f, "steps").items; var r := ValidFrom(ValidStep, items, 0);
            r.Ok? && |r.value| == |items| && forall i :: 0 <= i < |items| ==> DenotesStep(r.value[i], items[i])
    ensures var items := Member(f, "proposedActions").items; var r := ValidFrom(ValidAction, DropNullBefores(items), 0);
            && r.Ok? && |r.value| == |items|
            && (forall i :: 0 <= i < |items| ==> GoodAction(c, r.value[i], items[i]))
            && (c.readOnly ==> items == [])
    ensures var items := Member(f, "suggestedQualityChecks").items; var r := ValidFrom(ValidCheck, items, 0);
            && r.Ok? && |r.value| == |items|
            && (forall i :: 0 <= i < |items| ==> DenotesCheck(r.value[i], items[i]))
            && (c.readOnly || c.searchForbidden ==> items == [])
  {
    MatchedArrays(c, f);
    StepsAccepted(Member(f, "steps").items);
    ActionsAccepted(c, Member(f, "proposedActions").items);
    ChecksAccepted(c, Member(f, "suggestedQualityChecks").items);
  }

  /** The second validator accepts what the first one did, and reads the same plan. */
  lemma {:induction false} ValidatorsAgree(c: Contract, f: seq<Field>)
    requires Matches(Build(c), Obj(f))
    ensures var r := ValidPlan(PlanValue(f));
            r.Ok? && Denotes(r.value, f) && Permitted(c, r.value)
  {
    ArraysAgree(c, f);
    MatchedPresent(c, f);
    PlanReads(c, f);
  }

  /** The plan the second validator reads, written out. */
  lemma PlanReads(c: Contract, f: seq<Field>)
    requires Matches(Build(c), Obj(f))
    ensures MatchedKind(f)
    ensures var steps := ValidFrom(ValidStep, Member(f, "steps").items, 0);
            var actions := ValidFrom(ValidAction, DropNullBefores(Member(f, "proposedActions").items), 0);
            var checks := ValidFrom(ValidCheck, Member(f, "suggestedQualityChecks").items, 0);
            && steps.Ok? && actions.Ok? && checks.Ok?
            && ValidPlan(PlanValue(f)) == Ok(Plan(
                 Member(f, "summary").s, Strings(Member(f, "assumptions").items), steps.value, actions.value, checks.value, []))
  {
    MatchedKinds(c, f);
    ArraysAgree(c, f);
    PlanMembers(f);
    ValidPlanOf(PlanValue(f).fields, Member(f, "summary").s, Strings(Member(f, "assumptions").items), Member(f, "steps").items,
      DropNullBefores(Member(f, "proposedActions").items), Member(f, "suggestedQualityChecks").items);
  }

  lemma MatchedPresent(c: Contract, f: seq<Field>)
    requires Matches(Build(c), Obj(f))
    ensures forall k :: k in {"summary", "assumptions", "steps", "proposedActions", "suggestedQualityChecks", "questions"} ==>
              Get(f, k) == Some(Member(f, k))
  {
    MatchedMembers(c, f);
  }

  /** A wire value denotes at most one plan. */
  lemma {:induction false} DenotesUnique(p: Plan, q: Plan, f: seq<Field>)
    requires Denotes(p, f) && Denotes(q, f)
    ensures p == q
  {
    assert p.assumptions == q.assumptions;
    assert p.questions == q.questions;
    hide DenotesStep, DenotesAction, DenotesCheck, Get;
    forall i | 0 <= i < |p.steps| ensures p.steps[i] == q.steps[i] {
      StepUnique(p.steps[i], q.steps[i], Get(f, "steps").value.items[i]);
    }
    forall i | 0 <= i < |p.actions| ensures p.actions[i] == q.actions[i] {
      ActionUnique(p.actions[i], q.actions[i], Get(f, "proposedActions").value.items[i]);
    }
    forall i | 0 <= i < |p.checks| ensures p.checks[i] == q.checks[i] {
      CheckUnique(p.checks[i], q.checks[i], Get(f, "suggestedQualityChecks").value.items[i]);
    }
    assert p.steps == q.steps && p.actions == q.actions && p.checks == q.checks;
  }

  lemma StepUnique(a: Step, b: Step, v: Value)
    requires DenotesStep(a, v) && DenotesStep(b, v)
    ensures a == b
  {
    assert RiskName(a.risk) == RiskName(b.risk);
    assert |Lit("low")| != |Lit("medium")| && |Lit("high")| != |Lit("medium")| && |Lit("low")| != |Lit("high")|;
  }

  lemma CheckUnique(a: Check, b: Check, v: Value)
    requires DenotesCheck(a, v) && DenotesCheck(b, v)
    ensures a == b
  {
  }

  lemma ActionUnique(a: Action, b: Action, v: Value)
    requires DenotesAction(a, v) && DenotesAction(b, v)
    ensures a == b
  {
    LiteralsDiffer();
    if a.Shell? && b.Shell? {
      assert a.args.value == b.args.value;
    }
  }

  /** Redaction changes all that people read, and never what would be executed. */
  lemma RedactionKeepsExecutables(p: Plan, redact: Redactor)
    ensures var q := RedactPlan(p, redact);
            && |q.actions| == |p.actions| && |q.checks| == |p.checks| && |q.steps| == |p.steps|
            && (forall i :: 0 <= i < |p.actions| ==> q.actions[i].(rationale := p.actions[i].rationale) == p.actions[i])
            && (forall i :: 0 <= i < |p.checks| ==> q.checks[i].command == p.checks[i].command)
            && (forall i :: 0 <= i < |p.steps| ==> q.steps[i].risk == p.steps[i].risk)
            && q.questions == p.questions
    ensures var q := RedactPlan(p, redact);
            && q.summary == redact(p.summary) && |q.assumptions| == |p.assumptions|
            && (forall i :: 0 <= i < |p.assumptions| ==> q.assumptions[i] == redact(p.assumptions[i]))
            && (forall i :: 0 <= i < |p.steps| ==> q.steps[i] == Step(redact(p.steps[i].title), redact(p.steps[i].rationale), p.steps[i].risk))
            && (forall i :: 0 <= i < |p.actions| ==> q.actions[i].rationale == redact(p.actions[i].rationale))
            && (forall i :: 0 <= i < |p.checks| ==> q.checks[i].reason == redact(p.checks[i].reason))
  {
  }
}
