/**
 Exactly what strict output accepts (packages/agent/src/agent-output-schema.ts).
 */
module StrictAcceptance {
  import opened Prelude
  import opened Utf16
  import opened Json
  import opened JsonRoundTrip
  import opened AgentJson
  import opened OutputSchema
  import opened OutputParser
  import opened PrintedFence
  import opened StrictOutput

  // ---------------------------------------------------------------- acceptance without a schema

  /** These keys and no others. */
  ghost predicate HasExactly(f: seq<Field>, keys: seq<string>) {
    forall k: Text :: HasKey(f, k) <==> exists i :: 0 <= i < |keys| && k == Lit(keys[i])
  }

  const WIRE_KEYS: seq<string> := [
    "schemaVersion", "taskIntent", "summary", "assumptions", "steps", "proposedActions", "suggestedQualityChecks", "questions"]

  const STEP_KEYS: seq<string> := ["title", "rationale", "risk"]

  const CHECK_KEYS: seq<string> := ["command", "reason"]

  function ActionKeys(a: Action): seq<string> {
    match a
    case FilePatch(_, _, _) => ["type", "path", "patch", "rationale"]
    case FileDelete(_, _) => ["type", "path", "rationale"]
    case FileWrite(_, _, _, _) => ["type", "path", "before", "after", "rationale"]
    case Shell(_, _, _) => ["type", "command", "args", "rationale"]
  }

  /** It names what it would change or run. */
  predicate Named(a: Action) {
    match a
    case FilePatch(path, patch, _) => !Blank(path) && !Blank(patch)
    case FileDelete(path, _) => !Blank(path)
    case FileWrite(path, _, _, _) => !Blank(path)
    case Shell(command, _, _) => !Blank(command)
  }

  ghost predicate StepComplete(s: Step, v: Value) {
    v.Obj? && HasExactly(v.fields, STEP_KEYS) && !Blank(s.title)
  }

  ghost predicate ActionComplete(a: Action, v: Value) {
    v.Obj? && HasExactly(v.fields, ActionKeys(a)) && Named(a)
  }

  ghost predicate CheckComplete(c: Check, v: Value) {
    v.Obj? && HasExactly(v.fields, CHECK_KEYS) && !Blank(c.command)
  }

  function Entry(f: seq<Field>, key: string, i: nat): Value {
    match Get(f, key)
    case Some(Arr(items)) => if i < |items| then items[i] else Null
    case _ => Null
  }

  /** Nothing that has to say something is blank, and every entry has exactly the keys of its kind. */
  ghost predicate Complete(p: Plan, f: seq<Field>) {
    && !Blank(p.summary)
    && (forall i :: 0 <= i < |p.steps| ==> StepComplete(p.steps[i], Entry(f, "steps", i)))
    && (forall i :: 0 <= i < |p.actions| ==> ActionComplete(p.actions[i], Entry(f, "proposedActions", i)))
    && (forall i :: 0 <= i < |p.checks| ==> CheckComplete(p.checks[i], Entry(f, "suggestedQualityChecks", i)))
  }

  predicate IsOne(v: Option<Value>) {
    v.Some? && v.value.Num? && v.value.n.value == 1.0
  }

  /** Output of version 1 for this intent that denotes a complete plan the contract permits. */
  ghost predicate Accepted(c: Contract, f: seq<Field>) {
    && HasExactly(f, WIRE_KEYS) && IsOne(Get(f, "schemaVersion")) && Says(f, "taskIntent", c.intent)
    && exists p :: Denotes(p, f) && Permitted(c, p) && Complete(p, f)
  }

  // ---------------------------------------------------------------- records

  predicate Names(ps: seq<Property>, keys: seq<string>) {
    |ps| == |keys| && forall i :: 0 <= i < |ps| ==> ps[i].key == Lit(keys[i])
  }

  /** The property is there and fits. */
  predicate FitsAt(f: seq<Field>, p: Property) {
    HasKey(f, p.key) && Matches(p.schema, Lookup(f, p.key).value)
  }

  lemma HasField(f: seq<Field>, k: Text)
    ensures HasKey(f, k) <==> exists i :: 0 <= i < |f| && f[i].key == k
  {
    if HasKey(f, k) {
      assert f[IndexOf(f, k)].key == k;
    }
  }

  lemma SameKeys(f: seq<Field>, ps: seq<Property>, keys: seq<string>)
    requires DistinctKeys(f) && DistinctProperties(ps) && Names(ps, keys) && HasExactly(f, keys)
    ensures |f| == |ps|
  {
    hide Lit;
    var have := seq(|f|, k requires 0 <= k < |f| => f[k].key);
    var want := seq(|ps|, k requires 0 <= k < |ps| => ps[k].key);
    DistinctCount(have);
    DistinctCount(want);
    var haveSet, wantSet := set k | k in have, set k | k in want;
    forall k
      ensures k in haveSet <==> k in wantSet
    {
      HasField(f, k);
      if k in haveSet {
        var i :| 0 <= i < |have| && have[i] == k;
        assert f[i].key == k;
        var j :| 0 <= j < |keys| && k == Lit(keys[j]);
        assert want[j] == k;
      }
      if k in wantSet {
        var j :| 0 <= j < |want| && want[j] == k;
        assert k == Lit(keys[j]);
        var i :| 0 <= i < |f| && f[i].key == k;
        assert have[i] == k;
      }
    }
    assert haveSet == wantSet;
  }

  /** A record matches exactly if it has exactly the keys and every member fits. */
  lemma RecordExact(f: seq<Field>, ps: seq<Property>, keys: seq<string>)
    requires DistinctKeys(f) && DistinctProperties(ps) && Names(ps, keys)
    ensures Matches(ObjectSchema(ps), Obj(f)) <==> HasExactly(f, keys) && forall i :: 0 <= i < |ps| ==> FitsAt(f, ps[i])
  {
    hide Lit, HasKey, Lookup;
    if Matches(ObjectSchema(ps), Obj(f)) {
      forall k: Text
        ensures HasKey(f, k) <==> exists i :: 0 <= i < |keys| && k == Lit(keys[i])
      {
        HasField(f, k);
        if HasKey(f, k) {
          var i :| 0 <= i < |f| && f[i].key == k;
          NoOtherKeys(f, ps, i);
          var j :| 0 <= j < |ps| && ps[j].key == k;
          assert k == Lit(keys[j]);
        }
        if j :| 0 <= j < |keys| && k == Lit(keys[j]) {
          assert ps[j].key == k;
          MatchedProperty(ps, Obj(f), j);
        }
      }
    }
    if HasExactly(f, keys) && forall i :: 0 <= i < |ps| ==> FitsAt(f, ps[i]) {
      SameKeys(f, ps, keys);
    }
  }

  // ---------------------------------------------------------------- entries

  lemma TextFits(f: seq<Field>, key: string, t: Text, options: seq<Text>)
    requires Says(f, key, t)
    ensures FitsAt(f, Property(Lit(key), TEXT))
    ensures FitsAt(f, Property(Lit(key), NONEMPTY)) <==> !Blank(t)
    ensures FitsAt(f, Property(Lit(key), OneOf(options))) <==> t in options
  {
    hide Lit;
  }

  lemma TextsFit(f: seq<Field>, key: string, ts: seq<Text>)
    requires SaysAll(f, key, ts)
    ensures FitsAt(f, Property(Lit(key), STRINGS))
    ensures FitsAt(f, Property(Lit(key), ArraySchema(TEXT, Some(0)))) <==> ts == []
  {
    var items := Get(f, key).value.items;
    hide Lit;
    assert forall i :: 0 <= i < |items| ==> items[i] == Str(ts[i]) && Matches(TEXT, items[i]);
    assert Matches(STRINGS, Arr(items));
    var bounded := ArraySchema(TEXT, Some(0));
    assert Matches(bounded, Arr(items)) <==> |items| == 0;
    assert FitsAt(f, Property(Lit(key), bounded)) <==> Matches(bounded, Arr(items));
  }

  lemma StepNames()
    ensures Names(StepSchema().properties, STEP_KEYS) && DistinctProperties(StepSchema().properties)
  {
    PlainParts(Contract([], false, false));
  }

  lemma CheckNames()
    ensures Names(CheckSchema().properties, CHECK_KEYS) && DistinctProperties(CheckSchema().properties)
  {
    PlainParts(Contract([], false, false));
  }

  lemma PatchNames(a: Action)
    requires a.FilePatch?
    ensures Names(PatchSchema().properties, ActionKeys(a)) && DistinctProperties(PatchSchema().properties)
  {
    PlainPatch();
  }

  lemma DeleteNames(a: Action)
    requires a.FileDelete?
    ensures Names(DeleteSchema().properties, ActionKeys(a)) && DistinctProperties(DeleteSchema().properties)
  {
    PlainPatch();
  }

  lemma WriteNames(a: Action)
    requires a.FileWrite?
    ensures Names(WriteSchema().properties, ActionKeys(a)) && DistinctProperties(WriteSchema().properties)
  {
    PlainWrite();
  }

  lemma ShellNames(a: Action)
    requires a.Shell?
    ensures Names(ShellSchema().properties, ActionKeys(a)) && DistinctProperties(ShellSchema().properties)
  {
    PlainShell();
  }

  lemma StepExact(s: Step, v: Value)
    requires Proper(v) && DenotesStep(s, v)
    ensures Matches(StepSchema(), v) <==> StepComplete(s, v)
  {
    StepNames();
    var ps, f := StepSchema().properties, v.fields;
    var risks := [Lit("low"), Lit("medium"), Lit("high")];
    assert RiskName(s.risk) in risks;
    hide Lit, Names, DistinctProperties;
    RecordExact(f, ps, STEP_KEYS);
    TextFits(f, "title", s.title, []);
    TextFits(f, "rationale", s.rationale, []);
    TextFits(f, "risk", RiskName(s.risk), risks);
    hide FitsAt, Matches, HasExactly, RiskName;
    assert ps == [ps[0], ps[1], ps[2]];
  }

  lemma CheckExact(k: Check, v: Value)
    requires Proper(v) && DenotesCheck(k, v)
    ensures Matches(CheckSchema(), v) <==> CheckComplete(k, v)
  {
    CheckNames();
    var ps, f := CheckSchema().properties, v.fields;
    hide Lit, Names, DistinctProperties;
    RecordExact(f, ps, CHECK_KEYS);
    TextFits(f, "command", k.command, []);
    TextFits(f, "reason", k.reason, []);
    hide FitsAt, Matches, HasExactly;
    assert ps == [ps[0], ps[1]];
  }

  lemma PatchExact(a: Action, v: Value)
    requires Proper(v) && DenotesAction(a, v) && a.FilePatch?
    ensures Matches(PatchSchema(), v) <==> ActionComplete(a, v)
  {
    PatchNames(a);
    var ps, f := PatchSchema().properties, v.fields;
    hide Lit, Names, DistinctProperties;
    RecordExact(f, ps, ActionKeys(a));
    TextFits(f, "type", Lit("file_patch"), [Lit("file_patch")]);
    TextFits(f, "path", a.path, []);
    TextFits(f, "patch", a.patch, []);
    TextFits(f, "rationale", a.rationale, []);
    hide FitsAt, Matches, HasExactly;
    assert ps == [ps[0], ps[1], ps[2], ps[3]];
  }

  lemma DeleteExact(a: Action, v: Value)
    requires Proper(v) && DenotesAction(a, v) && a.FileDelete?
    ensures Matches(DeleteSchema(), v) <==> ActionComplete(a, v)
  {
    DeleteNames(a);
    var ps, f := DeleteSchema().properties, v.fields;
    hide Lit, Names, DistinctProperties;
    RecordExact(f, ps, ActionKeys(a));
    TextFits(f, "type", Lit("file_delete"), [Lit("file_delete")]);
    TextFits(f, "path", a.path, []);
    TextFits(f, "rationale", a.rationale, []);
    hide FitsAt, Matches, HasExactly;
    assert ps == [ps[0], ps[1], ps[2]];
  }

  lemma WriteExact(a: Action, v: Value)
    requires Proper(v) && DenotesAction(a, v) && a.FileWrite?
    ensures Matches(WriteSchema(), v) <==> ActionComplete(a, v)
  {
    WriteNames(a);
    var ps, f := WriteSchema().properties, v.fields;
    hide Lit, Names, DistinctProperties;
    RecordExact(f, ps, ActionKeys(a));
    TextFits(f, "type", Lit("file_write"), [Lit("file_write")]);
    TextFits(f, "path", a.path, []);
    TextFits(f, "after", a.after, []);
    TextFits(f, "rationale", a.rationale, []);
    BeforeFits(f, if a.before.Some? then Str(a.before.value) else Null);
    hide FitsAt, Matches, HasExactly;
    assert ps == [ps[0], ps[1], ps[2], ps[3], ps[4]];
  }

  lemma BeforeFits(f: seq<Field>, v: Value)
    requires Get(f, "before") == Some(v) && (v.Str? || v.Null?)
    ensures FitsAt(f, Property(Lit("before"), AnyOf([TEXT, NullSchema])))
  {
    hide Lit;
    var branches := [TEXT, NullSchema];
    if v.Str? {
      assert Matches(branches[0], v);
    } else {
      assert Matches(branches[1], v);
    }
  }

  lemma ShellExact(a: Action, v: Value)
    requires Proper(v) && DenotesAction(a, v) && a.Shell?
    ensures Matches(ShellSchema(), v) <==> ActionComplete(a, v)
  {
    ShellNames(a);
    var ps, f := ShellSchema().properties, v.fields;
    hide Lit, Names, DistinctProperties;
    RecordExact(f, ps, ActionKeys(a));
    TextFits(f, "type", Lit("shell"), [Lit("shell")]);
    TextFits(f, "command", a.command, []);
    TextFits(f, "rationale", a.rationale, []);
    TextsFit(f, "args", a.args.value);
    hide FitsAt, Matches, HasExactly;
    assert ps == [ps[0], ps[1], ps[2], ps[3]];
  }

  lemma KindsDiffer()
    ensures Lit("file_patch") != Lit("file_delete") && Lit("file_patch") != Lit("file_write") && Lit("file_patch") != Lit("shell")
    ensures Lit("file_delete") != Lit("file_write") && Lit("file_delete") != Lit("shell") && Lit("file_write") != Lit("shell")
  {
    LiteralsDiffer();
    assert |Lit("file_patch")| == 10 && |Lit("file_delete")| == 11 && |Lit("file_write")| == 10 && |Lit("shell")| == 5;
  }

  function KindOf(a: Action): Text {
    match a
    case FilePatch(_, _, _) => Lit("file_patch")
    case FileDelete(_, _) => Lit("file_delete")
    case FileWrite(_, _, _, _) => Lit("file_write")
    case Shell(_, _, _) => Lit("shell")
  }

  /** An action schema fits actions of its own kind only. */
  lemma KindMatched(ps: seq<Property>, kind: Text, a: Action, v: Value)
    requires DenotesAction(a, v) && Matches(ObjectSchema(ps), v)
    requires ps != [] && ps[0] == Property(Lit("type"), OneOf([kind]))
    ensures kind == KindOf(a)
  {
    hide Lit;
    MatchedProperty(ps, v, 0);
  }

  function SchemaOf(a: Action): Schema {
    match a
    case FilePatch(_, _, _) => PatchSchema()
    case FileDelete(_, _) => DeleteSchema()
    case FileWrite(_, _, _, _) => WriteSchema()
    case Shell(_, _, _) => ShellSchema()
  }

  /** The branch of one kind fits no other kind. */
  lemma OwnKind(a: Action, b: Action, v: Value)
    requires DenotesAction(a, v) && Matches(SchemaOf(b), v)
    ensures SchemaOf(b) == SchemaOf(a)
  {
    KindMatched(SchemaOf(b).properties, KindOf(b), a, v);
    KindsDiffer();
    hide Lit, DenotesAction, Matches;
  }

  const PATCH: Action := FilePatch([], [], [])
  const DELETE: Action := FileDelete([], [])
  const WRITE: Action := FileWrite([], None, [], [])
  const SHELL: Action := Shell([], None, [])

  lemma BranchExact(c: Contract, a: Action, v: Value)
    requires DenotesAction(a, v)
    ensures Matches(AnyOf(ActionSchemas(c)), v) <==> Matches(SchemaOf(a), v) && (c.searchForbidden ==> !a.Shell?)
  {
    var schemas := ActionSchemas(c);
    assert Matches(AnyOf(schemas), v) <==> exists i :: 0 <= i < |schemas| && Matches(schemas[i], v);
    assert schemas[0] == SchemaOf(PATCH) && schemas[1] == SchemaOf(DELETE) && schemas[2] == SchemaOf(WRITE);
    assert !c.searchForbidden ==> schemas[3] == SchemaOf(SHELL);
    SchemasDiffer();
    hide DenotesAction, Matches, PatchSchema, DeleteSchema, WriteSchema, ShellSchema;
    if i :| 0 <= i < |schemas| && Matches(schemas[i], v) {
      OwnKind(a, if i == 0 then PATCH else if i == 1 then DELETE else if i == 2 then WRITE else SHELL, v);
    }
  }

  lemma SchemasDiffer()
    ensures ShellSchema() !in {PatchSchema(), DeleteSchema(), WriteSchema()}
  {
    KindsDiffer();
    hide Lit;
    assert ShellSchema().properties[0].schema.options.value[0] == Lit("shell");
  }

  lemma ActionExact(c: Contract, a: Action, v: Value)
    requires Proper(v) && DenotesAction(a, v)
    ensures Matches(AnyOf(ActionSchemas(c)), v) <==> ActionComplete(a, v) && (c.searchForbidden ==> !a.Shell?)
  {
    hide DenotesAction, Proper, Matches, ActionComplete;
    BranchExact(c, a, v);
    match a {
      case FilePatch(_, _, _) => PatchExact(a, v);
      case FileDelete(_, _) => DeleteExact(a, v);
      case FileWrite(_, _, _, _) => WriteExact(a, v);
      case Shell(_, _, _) => ShellExact(a, v);
    }
  }

  // ---------------------------------------------------------------- the wire value

  lemma WireDistinct(c: Contract)
    ensures DistinctProperties(Build(c).properties) && Names(Build(c).properties, WIRE_KEYS)
  {
    var ps := Build(c).properties;
    assert |ps[0].key| == 13 && |ps[1].key| == 10 && |ps[2].key| == 7 && |ps[3].key| == 11;
    assert |ps[4].key| == 5 && |ps[5].key| == 15 && |ps[6].key| == 22 && |ps[7].key| == 9;
  }

  lemma WireExact(c: Contract, f: seq<Field>)
    requires DistinctKeys(f)
    ensures Matches(Build(c), Obj(f)) <==>
              && HasExactly(f, WIRE_KEYS)
              && FitsAt(f, Property(Lit("schemaVersion"), IntegerSchema([1])))
              && FitsAt(f, Property(Lit("taskIntent"), OneOf([c.intent])))
              && FitsAt(f, Property(Lit("summary"), NONEMPTY)) && FitsAt(f, Property(Lit("assumptions"), STRINGS))
              && FitsAt(f, Property(Lit("steps"), ArraySchema(StepSchema(), None)))
              && FitsAt(f, Property(Lit("proposedActions"), ActionsSchema(c)))
              && FitsAt(f, Property(Lit("suggestedQualityChecks"), ChecksSchema(c)))
              && FitsAt(f, Property(Lit("questions"), ArraySchema(TEXT, Some(0))))
  {
    WireDistinct(c);
    var ps := Build(c).properties;
    hide Lit, FitsAt, Matches, HasExactly, StepSchema, ActionsSchema, ChecksSchema, DistinctProperties, Names, WIRE_KEYS;
    RecordExact(f, ps, WIRE_KEYS);
    EachOfEight(f, ps);
  }

  lemma EachOfEight(f: seq<Field>, ps: seq<Property>)
    requires |ps| == 8
    ensures (forall i :: 0 <= i < |ps| ==> FitsAt(f, ps[i])) <==>
              && FitsAt(f, ps[0]) && FitsAt(f, ps[1]) && FitsAt(f, ps[2]) && FitsAt(f, ps[3])
              && FitsAt(f, ps[4]) && FitsAt(f, ps[5]) && FitsAt(f, ps[6]) && FitsAt(f, ps[7])
  {
    hide FitsAt;
  }

  lemma VersionFits(f: seq<Field>)
    ensures FitsAt(f, Property(Lit("schemaVersion"), IntegerSchema([1]))) <==> IsOne(Get(f, "schemaVersion"))
  {
    hide Lit;
    if IsOne(Get(f, "schemaVersion")) {
      assert (1.0).Floor == 1;
    }
  }

  lemma IntentFits(f: seq<Field>, intent: Text)
    ensures FitsAt(f, Property(Lit("taskIntent"), OneOf([intent]))) <==> Says(f, "taskIntent", intent)
  {
    hide Lit;
  }

  /** An array of records fits exactly if its length does and every record does. */
  lemma ArrayFits(f: seq<Field>, key: string, items: seq<Value>, schema: Schema, maxItems: Option<nat>)
    requires Get(f, key) == Some(Arr(items)) && (maxItems.None? || maxItems == Some(0))
    ensures FitsAt(f, Property(Lit(key), ArraySchema(schema, maxItems))) <==>
              (maxItems == Some(0) ==> items == []) && forall i :: 0 <= i < |items| ==> Matches(schema, items[i])
  {
    hide Lit;
  }

  lemma EntriesProper(f: seq<Field>, key: string, items: seq<Value>)
    requires Proper(Obj(f)) && Get(f, key) == Some(Arr(items))
    ensures forall i :: 0 <= i < |items| ==> Proper(items[i]) && Entry(f, key, i) == items[i]
  {
    hide Lit;
    MemberProper(f, key);
  }

  lemma StepsExact(p: Plan, f: seq<Field>)
    requires Proper(Obj(f)) && Denotes(p, f)
    ensures FitsAt(f, Property(Lit("steps"), ArraySchema(StepSchema(), None))) <==>
              forall i :: 0 <= i < |p.steps| ==> StepComplete(p.steps[i], Entry(f, "steps", i))
  {
    var items := Get(f, "steps").value.items;
    hide Lit, Get, Matches, StepSchema, DenotesStep, DenotesAction, DenotesCheck, Says, SaysAll, FitsAt, StepComplete, Proper;
    EntriesProper(f, "steps", items);
    ArrayFits(f, "steps", items, StepSchema(), None);
    forall i | 0 <= i < |items|
      ensures Matches(StepSchema(), items[i]) <==> StepComplete(p.steps[i], Entry(f, "steps", i))
    {
      StepExact(p.steps[i], items[i]);
    }
  }

  lemma ChecksExact(c: Contract, p: Plan, f: seq<Field>)
    requires Proper(Obj(f)) && Denotes(p, f)
    ensures FitsAt(f, Property(Lit("suggestedQualityChecks"), ChecksSchema(c))) <==>
              && (c.readOnly || c.searchForbidden ==> p.checks == [])
              && forall i :: 0 <= i < |p.checks| ==> CheckComplete(p.checks[i], Entry(f, "suggestedQualityChecks", i))
  {
    var items := Get(f, "suggestedQualityChecks").value.items;
    hide Lit, Get, Matches, CheckSchema, DenotesStep, DenotesAction, DenotesCheck, Says, SaysAll, FitsAt, CheckComplete, Proper;
    EntriesProper(f, "suggestedQualityChecks", items);
    ArrayFits(f, "suggestedQualityChecks", items, CheckSchema(), ChecksSchema(c).maxItems);
    forall i | 0 <= i < |items|
      ensures Matches(CheckSchema(), items[i]) <==> CheckComplete(p.checks[i], Entry(f, "suggestedQualityChecks", i))
    {
      CheckExact(p.checks[i], items[i]);
    }
  }

  lemma ActionsExact(c: Contract, p: Plan, f: seq<Field>)
    requires Proper(Obj(f)) && Denotes(p, f)
    ensures FitsAt(f, Property(Lit("proposedActions"), ActionsSchema(c))) <==>
              && (c.readOnly ==> p.actions == [])
              && (c.searchForbidden ==> forall i :: 0 <= i < |p.actions| ==> !p.actions[i].Shell?)
              && forall i :: 0 <= i < |p.actions| ==> ActionComplete(p.actions[i], Entry(f, "proposedActions", i))
  {
    var items := Get(f, "proposedActions").value.items;
    hide Lit, Get, Matches, ActionSchemas, DenotesStep, DenotesAction, DenotesCheck, Says, SaysAll, FitsAt, ActionComplete, Proper;
    EntriesProper(f, "proposedActions", items);
    ArrayFits(f, "proposedActions", items, AnyOf(ActionSchemas(c)), ActionsSchema(c).maxItems);
    forall i | 0 <= i < |items|
      ensures Matches(AnyOf(ActionSchemas(c)), items[i]) <==>
                ActionComplete(p.actions[i], Entry(f, "proposedActions", i)) && (c.searchForbidden ==> !p.actions[i].Shell?)
    {
      ActionExact(c, p.actions[i], items[i]);
    }
  }

  /** Given the plan it denotes, a wire value matches exactly if the plan is permitted and complete, and the rest is right. */
  lemma DenotedExact(c: Contract, p: Plan, f: seq<Field>)
    requires Proper(Obj(f)) && Denotes(p, f)
    ensures Matches(Build(c), Obj(f)) <==>
              && HasExactly(f, WIRE_KEYS) && IsOne(Get(f, "schemaVersion")) && Says(f, "taskIntent", c.intent)
              && Permitted(c, p) && Complete(p, f)
  {
    WireExact(c, f);
    VersionFits(f);
    IntentFits(f, c.intent);
    TextFits(f, "summary", p.summary, []);
    TextsFit(f, "assumptions", p.assumptions);
    TextsFit(f, "questions", p.questions);
    StepsExact(p, f);
    ActionsExact(c, p, f);
    ChecksExact(c, p, f);
    hide Matches, FitsAt, HasExactly, IsOne, Says, Get, Lit, StepComplete, ActionComplete, CheckComplete, Denotes, Proper, Build;
  }

  /** The schema accepts exactly the output of version 1 for this intent that denotes a complete and permitted plan. */
  lemma AcceptedExact(c: Contract, f: seq<Field>)
    requires Proper(Obj(f))
    ensures Matches(Build(c), Obj(f)) <==> Accepted(c, f)
  {
    hide Matches, Build, HasExactly, IsOne, Says, Denotes, Permitted, Complete, Proper, ValidPlan, PlanValue;
    if Matches(Build(c), Obj(f)) {
      ValidatorsAgree(c, f);
      var p := ValidPlan(PlanValue(f)).value;
      DenotedExact(c, p, f);
      assert Denotes(p, f) && Permitted(c, p) && Complete(p, f);
    }
    if Accepted(c, f) {
      var p :| Denotes(p, f) && Permitted(c, p) && Complete(p, f);
      DenotedExact(c, p, f);
    }
  }

  // ---------------------------------------------------------------- the round trip

  lemma {:induction false} NormalizeAccepts(raw: Text, c: Contract, num: Reader)
    ensures Normalize(raw, c, num).Ok? <==>
            exists f :: Parse(raw, num, false) == Some(Obj(f)) && Accepted(c, f)
    ensures Normalize(raw, c, num).Ok? ==>
              && Parse(raw, num, false).Some? && Parse(raw, num, false).value.Obj?
              && var f := Parse(raw, num, false).value.fields;
              && Proper(Obj(f)) && Matches(Build(c), Obj(f)) && PlanValue(f).Obj?
              && Normalize(raw, c, num).value == Fenced(EscapeTicks(Print(PlanValue(f))))
  {
    hide Matches, Build, Print, EscapeTicks, Proper, ParseValue, DropNullBefores, Member, Accepted;
    ParsedProper(raw, num, false);
    var parsed := Parse(raw, num, false);
    if parsed.Some? && parsed.value.Obj? {
      AcceptedExact(c, parsed.value.fields);
      assert parsed.value == Obj(parsed.value.fields);
    }
  }

  /**
   The round trip: output is accepted exactly when it is JSON of version 1 for the intent that denotes
   a complete plan the contract permits, and then parsing the printed fence yields that plan, redacted.
   */
  lemma {:induction false} StrictRoundTrip(raw: Text, c: Contract, num: Reader, redact: Option<Redactor>, num': Reader)
    ensures Normalize(raw, c, num).Ok? <==>
            exists f :: Parse(raw, num, false) == Some(Obj(f)) && Accepted(c, f)
    ensures Normalize(raw, c, num).Ok? ==>
            exists p, f ::
              && Parse(raw, num, false) == Some(Obj(f))
              && Denotes(p, f) && Permitted(c, p)
              && ParsedPlan(Normalize(raw, c, num).value, redact, num') ==
                 Ok(if redact.Some? then RedactPlan(p, redact.value) else p)
  {
    NormalizeAccepts(raw, c, num);
    if Normalize(raw, c, num).Ok? {
      hide Parse, Matches, Build, PlanValue, Denotes, Permitted, Print, EscapeTicks, ValidPlan, RedactPlan, Proper, Numberless,
        EnvelopeOf, Normalize, Fenced, Accepted;
      var f := Parse(raw, num, false).value.fields;
      ValidatorsAgree(c, f);
      PlanPrintable(c, f);
      FenceRoundTrip(PlanValue(f).fields, num');
      assert Denotes(ValidPlan(PlanValue(f)).value, f) && Permitted(c, ValidPlan(PlanValue(f)).value);
    }
  }
}
