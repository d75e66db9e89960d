/**
 Exactly which fenced plans are accepted (packages/agent/src/agent-output-parser.ts).
 */
module PlanReading {
  import opened Prelude
  import opened Utf16
  import opened Json
  import opened OutputSchema
  import opened OutputParser
  import opened StrictOutput
  import opened StrictAcceptance

  // ---------------------------------------------------------------- what a parsed value says

  predicate Missing(f: seq<Field>, key: string) {
    Get(f, key) == None || Get(f, key) == Some(Null)
  }

  /** A list of texts; a missing one is empty. */
  predicate ListsTexts(f: seq<Field>, key: string, ts: seq<Text>) {
    if Missing(f, key) then ts == [] else SaysAll(f, key, ts)
  }

  /** The entries of a list; a missing one is empty. */
  predicate Lists(f: seq<Field>, key: string, items: seq<Value>) {
    if Missing(f, key) then items == [] else Get(f, key) == Some(Arr(items))
  }

  predicate SaysStep(s: Step, v: Value) {
    DenotesStep(s, v) && s.title != []
  }

  predicate SaysCheck(k: Check, v: Value) {
    DenotesCheck(k, v) && !Blank(k.command)
  }

  /** As on the wire, but `before` and `args` may be missing, and a `before` that is no text counts as missing. */
  ghost predicate SaysAction(a: Action, v: Value) {
    v.Obj? && Says(v.fields, "rationale", a.rationale) &&
    var f := v.fields;
    match a
    case FilePatch(path, patch, _) =>
      Says(f, "type", Lit("file_patch")) && Says(f, "path", path) && path != [] && Says(f, "patch", patch) && !Blank(patch)
    case FileDelete(path, _) =>
      Says(f, "type", Lit("file_delete")) && Says(f, "path", path) && !Blank(path)
    case FileWrite(path, before, after, _) =>
      && Says(f, "type", Lit("file_write")) && Says(f, "path", path) && path != [] && Says(f, "after", after)
      && (before.Some? ==> Says(f, "before", before.value))
      && (before.None? ==> forall t :: !Says(f, "before", t))
    case Shell(command, args, _) =>
      && Says(f, "type", Lit("shell")) && Says(f, "command", command) && !Blank(command)
      && (if args.Some? then SaysAll(f, "args", args.value) else Get(f, "args") == None)
  }

  ghost predicate SaysPlan(p: Plan, v: Value) {
    && v.Obj?
    && var f := v.fields;
    && Says(f, "summary", p.summary) && !Blank(p.summary)
    && ListsTexts(f, "assumptions", p.assumptions)
    && (exists items :: Lists(f, "steps", items) && Each(items, p.steps, SaysStep))
    && (exists items :: Lists(f, "proposedActions", items) && Each(items, p.actions, SaysAction))
    && (exists items :: Lists(f, "suggestedQualityChecks", items) && Each(items, p.checks, SaysCheck))
    && (exists questions :: ListsTexts(f, "questions", questions))
    && p.questions == []
  }

  predicate Each<T>(items: seq<Value>, xs: seq<T>, says: (T, Value) -> bool) {
    |xs| == |items| && forall i :: 0 <= i < |xs| ==> says(xs[i], items[i])
  }

  // ---------------------------------------------------------------- entries

  lemma SaysText(f: seq<Field>, key: string, t: Text)
    ensures Says(f, key, t) <==> IsText(Get(f, key)) && Get(f, key).value.s == t
    ensures IsNonEmpty(Get(f, key)) && Get(f, key).value.s == t <==> Says(f, key, t) && t != []
    ensures IsNonBlank(Get(f, key)) && Get(f, key).value.s == t <==> Says(f, key, t) && !Blank(t)
  {
    hide Lit, Trim, Blank;
    TrimBlank(t);
  }

  lemma RiskExact(v: Option<Value>, r: Risk)
    ensures RiskOf(v) == Some(r) <==> v == Some(Str(RiskName(r)))
  {
    assert |Lit("low")| == 3 && |Lit("medium")| == 6 && |Lit("high")| == 4;
  }

  lemma StepReads(s: Step, v: Value, i: nat)
    ensures ValidStep(v, i) == Ok(s) <==> SaysStep(s, v)
  {
    if v.Obj? {
      SaysText(v.fields, "title", s.title);
      SaysText(v.fields, "rationale", s.rationale);
      RiskExact(Get(v.fields, "risk"), s.risk);
      hide Lit, Get, RiskOf, RiskName, Blank, Trim;
    }
  }

  lemma CheckReads(k: Check, v: Value, i: nat)
    ensures ValidCheck(v, i) == Ok(k) <==> SaysCheck(k, v)
  {
    if v.Obj? {
      SaysText(v.fields, "command", k.command);
      SaysText(v.fields, "reason", k.reason);
      hide Lit, Get, Blank, Trim;
    }
  }

  lemma StringsExact(f: seq<Field>, key: string, ts: seq<Text>)
    ensures SaysAll(f, key, ts) <==> Get(f, key).Some? && IsStringArray(Get(f, key).value) && Strings(Get(f, key).value.items) == ts
  {
    hide Lit;
    if SaysAll(f, key, ts) {
      var items := Get(f, key).value.items;
      assert forall i :: 0 <= i < |items| ==> items[i] == Str(ts[i]);
    }
    if Get(f, key).Some? && IsStringArray(Get(f, key).value) && Strings(Get(f, key).value.items) == ts {
      var items := Get(f, key).value.items;
      assert forall i :: 0 <= i < |items| ==> items[i] == Str(Strings(items)[i]);
    }
  }

  lemma PatchReads(a: Action, v: Value, i: nat)
    requires v.Obj? && a.FilePatch?
    ensures ValidAction(v, i) == Ok(a) <==> SaysAction(a, v)
  {
    KindsDiffer();
    var f := v.fields;
    SaysText(f, "rationale", a.rationale);
    SaysText(f, "path", a.path);
    SaysText(f, "patch", a.patch);
    hide Lit, Get, Blank, Trim, IsStringArray, SaysAll;
  }

  lemma DeleteReads(a: Action, v: Value, i: nat)
    requires v.Obj? && a.FileDelete?
    ensures ValidAction(v, i) == Ok(a) <==> SaysAction(a, v)
  {
    KindsDiffer();
    var f := v.fields;
    SaysText(f, "rationale", a.rationale);
    SaysText(f, "path", a.path);
    hide Lit, Get, Blank, Trim, IsStringArray, SaysAll;
  }

  lemma WriteReads(a: Action, v: Value, i: nat)
    requires v.Obj? && a.FileWrite?
    ensures ValidAction(v, i) == Ok(a) <==> SaysAction(a, v)
  {
    KindsDiffer();
    var f := v.fields;
    SaysText(f, "rationale", a.rationale);
    SaysText(f, "path", a.path);
    SaysText(f, "after", a.after);
    BeforeReads(f, a.before);
    hide Lit, Get, Blank, Trim, IsStringArray, SaysAll;
  }

  lemma BeforeReads(f: seq<Field>, before: Option<Text>)
    ensures (if IsText(Get(f, "before")) then Some(Get(f, "before").value.s) else None) == before <==>
              (before.Some? ==> Says(f, "before", before.value)) && (before.None? ==> forall t :: !Says(f, "before", t))
  {
    hide Lit;
    if IsText(Get(f, "before")) {
      assert Says(f, "before", Get(f, "before").value.s);
    }
  }

  lemma ShellReads(a: Action, v: Value, i: nat)
    requires v.Obj? && a.Shell?
    ensures ValidAction(v, i) == Ok(a) <==> SaysAction(a, v)
  {
    KindsDiffer();
    var f := v.fields;
    SaysText(f, "rationale", a.rationale);
    SaysText(f, "command", a.command);
    StringsExact(f, "args", if a.args.Some? then a.args.value else []);
    hide Lit, Get, Blank, Trim, IsStringArray, SaysAll;
  }

  lemma ActionReads(a: Action, v: Value, i: nat)
    ensures ValidAction(v, i) == Ok(a) <==> SaysAction(a, v)
  {
    if v.Obj? {
      match a {
        case FilePatch(_, _, _) => PatchReads(a, v, i);
        case FileDelete(_, _) => DeleteReads(a, v, i);
        case FileWrite(_, _, _, _) => WriteReads(a, v, i);
        case Shell(_, _, _) => ShellReads(a, v, i);
      }
    }
    hide ValidAction;
  }

  // ---------------------------------------------------------------- lists

  /** A list is read exactly if every entry is. */
  lemma ListReads<T>(valid: (Value, nat) -> Result<T, Reason>, says: (T, Value) -> bool, items: seq<Value>, xs: seq<T>)
    requires forall x, v, i: nat :: valid(v, i) == Ok(x) <==> says(x, v)
    ensures ValidFrom(valid, items, 0) == Ok(xs) <==> Each(items, xs, says)
  {
    hide ValidFrom;
    if ValidFrom(valid, items, 0).Ok? {
      ValidEach(valid, items, 0);
      var out := ValidFrom(valid, items, 0).value;
      if Each(items, xs, says) {
        forall j | 0 <= j < |items|
          ensures out[j] == xs[j]
        {
          assert valid(items[j], j) == Ok(out[j]);
          assert valid(items[j], j) == Ok(xs[j]);
        }
        assert out == xs;
      }
    }
    if Each(items, xs, says) {
      forall j | 0 <= j < |items|
        ensures valid(items[j], j) == Ok(xs[j])
      {
        assert says(xs[j], items[j]);
      }
      AllValid(valid, items, 0);
      assert ValidFrom(valid, items, 0).value == xs;
    }
  }

  lemma StepsRead(items: seq<Value>, steps: seq<Step>)
    ensures ValidFrom(ValidStep, items, 0) == Ok(steps) <==> Each(items, steps, SaysStep)
  {
    forall x, v, i: nat
      ensures ValidStep(v, i) == Ok(x) <==> SaysStep(x, v)
    {
      StepReads(x, v, i);
    }
    ListReads(ValidStep, SaysStep, items, steps);
  }

  lemma ActionsRead(items: seq<Value>, actions: seq<Action>)
    ensures ValidFrom(ValidAction, items, 0) == Ok(actions) <==> Each(items, actions, SaysAction)
  {
    forall x, v, i: nat
      ensures ValidAction(v, i) == Ok(x) <==> SaysAction(x, v)
    {
      ActionReads(x, v, i);
    }
    ListReads(ValidAction, SaysAction, items, actions);
  }

  lemma ChecksRead(items: seq<Value>, checks: seq<Check>)
    ensures ValidFrom(ValidCheck, items, 0) == Ok(checks) <==> Each(items, checks, SaysCheck)
  {
    forall x, v, i: nat
      ensures ValidCheck(v, i) == Ok(x) <==> SaysCheck(x, v)
    {
      CheckReads(x, v, i);
    }
    ListReads(ValidCheck, SaysCheck, items, checks);
  }

  lemma MissingList(f: seq<Field>, key: string)
    ensures OrEmpty(Get(f, key)) == if Missing(f, key) then Arr([]) else Get(f, key).value
    ensures forall items :: Lists(f, key, items) <==> OrEmpty(Get(f, key)) == Arr(items)
  {
    hide Lit;
  }

  lemma TextsRead(f: seq<Field>, key: string, ts: seq<Text>)
    ensures ListsTexts(f, key, ts) <==> IsStringArray(OrEmpty(Get(f, key))) && Strings(OrEmpty(Get(f, key)).items) == ts
  {
    hide Lit;
    StringsExact(f, key, ts);
  }

  lemma SomeTexts(f: seq<Field>, key: string)
    ensures (exists ts :: ListsTexts(f, key, ts)) <==> IsStringArray(OrEmpty(Get(f, key)))
  {
    if IsStringArray(OrEmpty(Get(f, key))) {
      TextsRead(f, key, Strings(OrEmpty(Get(f, key)).items));
    }
    forall ts
      ensures ListsTexts(f, key, ts) ==> IsStringArray(OrEmpty(Get(f, key)))
    {
      TextsRead(f, key, ts);
    }
  }

  /** A parsed value is accepted as a plan exactly if it says that plan. */
  lemma PlanExact(v: Value, p: Plan)
    ensures ValidPlan(v) == Ok(p) <==> SaysPlan(p, v)
  {
    if v.Obj? {
      var f := v.fields;
      SaysText(f, "summary", p.summary);
      TextsRead(f, "assumptions", p.assumptions);
      SomeTexts(f, "questions");
      MissingList(f, "steps");
      MissingList(f, "proposedActions");
      MissingList(f, "suggestedQualityChecks");
      var steps, actions, checks := OrEmpty(Get(f, "steps")), OrEmpty(Get(f, "proposedActions")), OrEmpty(Get(f, "suggestedQualityChecks"));
      if steps.Arr? {
        StepsRead(steps.items, p.steps);
      }
      if actions.Arr? {
        ActionsRead(actions.items, p.actions);
      }
      if checks.Arr? {
        ChecksRead(checks.items, p.checks);
      }
      hide Get, OrEmpty, Lists, ListsTexts, Each, ValidFrom, IsStringArray, Strings, Blank, Trim, Says, Lit;
    }
  }
}
