/**
 The output contract of a task: its schema, the schema matcher and the printer of accepted
 output (packages/agent/src/agent-output-schema.ts).
 */
module OutputSchema {
  import opened Prelude
  import opened Utf16
  import opened Json
  import opened JsonRoundTrip

  /** The parts of a task contract that shape the schema. */
  datatype Contract = Contract(intent: Text, readOnly: bool, searchForbidden: bool)

  /** Every property of an object schema is required and no other is allowed. */
  datatype Schema =
    | StringSchema(options: Option<seq<Text>>, nonBlank: bool)
    | IntegerSchema(integers: seq<int>)
    | NullSchema
    | ObjectSchema(properties: seq<Property>)
    | ArraySchema(items: Schema, maxItems: Option<nat>)
    | AnyOf(branches: seq<Schema>)

  datatype Property = Property(key: Text, schema: Schema)

  const TEXT: Schema := StringSchema(None, false)
  const NONEMPTY: Schema := StringSchema(None, true)
  const STRINGS: Schema := ArraySchema(TEXT, None)

  function OneOf(options: seq<Text>): Schema {
    StringSchema(Some(options), false)
  }

  function PatchSchema(): Schema {
    ObjectSchema([
      Property(Lit("type"), OneOf([Lit("file_patch")])), Property(Lit("path"), NONEMPTY),
      Property(Lit("patch"), NONEMPTY), Property(Lit("rationale"), TEXT)])
  }

  function DeleteSchema(): Schema {
    ObjectSchema([
      Property(Lit("type"), OneOf([Lit("file_delete")])), Property(Lit("path"), NONEMPTY),
      Property(Lit("rationale"), TEXT)])
  }

  function WriteSchema(): Schema {
    ObjectSchema([
      Property(Lit("type"), OneOf([Lit("file_write")])), Property(Lit("path"), NONEMPTY),
      Property(Lit("before"), AnyOf([TEXT, NullSchema])), Property(Lit("after"), TEXT),
      Property(Lit("rationale"), TEXT)])
  }

  function ShellSchema(): Schema {
    ObjectSchema([
      Property(Lit("type"), OneOf([Lit("shell")])), Property(Lit("command"), NONEMPTY),
      Property(Lit("args"), STRINGS), Property(Lit("rationale"), TEXT)])
  }

  function StepSchema(): Schema {
    ObjectSchema([
      Property(Lit("title"), NONEMPTY), Property(Lit("rationale"), TEXT),
      Property(Lit("risk"), OneOf([Lit("low"), Lit("medium"), Lit("high")]))])
  }

  function CheckSchema(): Schema {
    ObjectSchema([Property(Lit("command"), NONEMPTY), Property(Lit("reason"), TEXT)])
  }

  function ActionSchemas(c: Contract): seq<Schema> {
    [PatchSchema(), DeleteSchema(), WriteSchema()] + if c.searchForbidden then [] else [ShellSchema()]
  }

  function ActionsSchema(c: Contract): Schema {
    ArraySchema(AnyOf(ActionSchemas(c)), if c.readOnly then Some(0) else None)
  }

  function ChecksSchema(c: Contract): Schema {
    ArraySchema(CheckSchema(), if c.readOnly || c.searchForbidden then Some(0) else None)
  }

  /** buildAgentOutputSchema. */
  function Build(c: Contract): Schema {
    ObjectSchema([
      Property(Lit("schemaVersion"), IntegerSchema([1])),
      Property(Lit("taskIntent"), OneOf([c.intent])),
      Property(Lit("summary"), NONEMPTY),
      Property(Lit("assumptions"), STRINGS),
      Property(Lit("steps"), ArraySchema(StepSchema(), None)),
      Property(Lit("proposedActions"), ActionsSchema(c)),
      Property(Lit("suggestedQualityChecks"), ChecksSchema(c)),
      Property(Lit("questions"), ArraySchema(TEXT, Some(0)))])
  }

  predicate IsSafeInteger(r: real) {
    r.Floor as real == r && -MAX_SAFE_INTEGER <= r.Floor <= MAX_SAFE_INTEGER
  }

  predicate Matches(schema: Schema, v: Value) {
    match schema
    case AnyOf(branches) => exists i :: 0 <= i < |branches| && Matches(branches[i], v)
    case NullSchema => v.Null?
    case StringSchema(options, nonBlank) =>
      && v.Str?
      && (options.Some? ==> v.s in options.value)
      && (nonBlank ==> !Blank(v.s))
    case IntegerSchema(integers) => v.Num? && IsSafeInteger(v.n.value) && v.n.value.Floor in integers
    case ArraySchema(items, maxItems) =>
      && v.Arr?
      && (maxItems.Some? ==> |v.items| <= maxItems.value)
      && forall i :: 0 <= i < |v.items| ==> Matches(items, v.items[i])
    case ObjectSchema(properties) =>
      && v.Obj?
      && |v.fields| == |properties|
      && forall i :: 0 <= i < |properties| ==>
           HasKey(v.fields, properties[i].key) &&
           Matches(properties[i].schema, Lookup(v.fields, properties[i].key).value)
  }

  // ---------------------------------------------------------------- printing accepted output

  function Without(fields: seq<Field>, key: Text): (r: seq<Field>)
    ensures forall f :: f in r <==> f in fields && f.key != key
  {
    if fields == [] then []
    else (if fields[0].key == key then [] else [fields[0]]) + Without(fields[1..], key)
  }

  /** A file write without a previous content carries no `before` outside the wire format. */
  function DropNullBefore(action: Value): Value {
    match action
    case Obj(fields) =>
      if Lookup(fields, Lit("type")) == Some(Str(Lit("file_write"))) && Lookup(fields, Lit("before")) == Some(Null)
      then Obj(Without(fields, Lit("before")))
      else action
    case _ => action
  }

  function DropNullBefores(actions: seq<Value>): (r: seq<Value>)
    ensures |r| == |actions|
    ensures forall i :: 0 <= i < |r| ==> r[i] == DropNullBefore(actions[i])
  {
    seq(|actions|, i requires 0 <= i < |actions| => DropNullBefore(actions[i]))
  }

  function Get(fields: seq<Field>, key: string): Option<Value> {
    Lookup(fields, Lit(key))
  }

  function Member(fields: seq<Field>, key: string): Value {
    match Get(fields, key)
    case Some(v) => v
    case None => Null
  }

  /** The plan that is handed on: the wire value without its version and intent. */
  function PlanValue(wire: seq<Field>): Value {
    var actions := Member(wire, "proposedActions");
    Obj([
      Field(Lit("summary"), Member(wire, "summary")),
      Field(Lit("assumptions"), Member(wire, "assumptions")),
      Field(Lit("steps"), Member(wire, "steps")),
      Field(Lit("proposedActions"), if actions.Arr? then Arr(DropNullBefores(actions.items)) else actions),
      Field(Lit("suggestedQualityChecks"), Member(wire, "suggestedQualityChecks")),
      Field(Lit("questions"), Member(wire, "questions"))])
  }

  const OPENING_LINE: Text := Lit("```harness_agent_plan") + [NEWLINE]
  const CLOSING_LINE: Text := [NEWLINE, TICK, TICK, TICK]

  datatype Rejection = InvalidOutput

  /** normalizeStructuredAgentOutput. */
  function Normalize(raw: Text, c: Contract, num: Reader): Result<Text, Rejection> {
    match Parse(raw, num, false)
    case None => Err(InvalidOutput)
    case Some(v) =>
      if !Matches(Build(c), v) || !v.Obj? then Err(InvalidOutput)
      else Ok(OPENING_LINE + EscapeTicks(Print(PlanValue(v.fields))) + CLOSING_LINE)
  }
}
