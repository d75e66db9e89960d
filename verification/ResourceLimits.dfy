/**
 Counting the bytes of a JSON serialization (packages/agent/src/a2a-resource-limits.ts).
 */
module ResourceLimits {
  import opened Prelude
  import opened Utf16
  import opened Json

  // Runtime data is a graph of objects; what it denotes, if anything, is a JSON value of the
  // module Json, and the specification speaks of the text `JSON.stringify` prints for it.

  // ---------------------------------------------------------------- runtime data

  predicate IsAscii(t: Text) {
    forall i :: 0 <= i < |t| ==> t[i] < 0x80
  }

  /** The decimal text of a finite number. */
  type Decimal = n: Number | IsAscii(n.text) witness Number([], 0.0)

  /** A value of `typeof` other than "object", null, or a reference to an object. */
  datatype Item =
    | Undefined
    | NullItem
    | Truth(b: bool)
    | Finite(n: Decimal)
    | NonFinite
    | Words(s: Text)
    | Uncountable
    | Reference(id: nat)

  /** An own property is data or has accessors; a missing array element reads as undefined data. */
  datatype Slot = Data(item: Item) | Accessors

  datatype Property = Property(key: Text, slot: Slot)

  datatype Node = ArrayNode(slots: seq<Slot>) | PlainNode(properties: seq<Property>) | ExoticNode

  type Heap = nat -> Node

  // ---------------------------------------------------------------- what it denotes

  function SlotItem(slot: Slot): Item
    requires slot.Data?
  {
    if slot.item.Undefined? then NullItem else slot.item
  }

  /** The JSON value of an item whose nesting has at most `levels` levels. */
  function Unfold(h: Heap, item: Item, levels: nat): Option<Value>
    decreases levels, 0
  {
    if levels == 0 then None
    else
      match item
      case Undefined => None
      case Uncountable => None
      case NullItem => Some(Null)
      case Truth(b) => Some(Bool(b))
      case Finite(n) => Some(Num(n))
      case NonFinite => Some(Null)
      case Words(s) => Some(Str(s))
      case Reference(id) =>
        match h(id)
        case ExoticNode => None
        case ArrayNode(slots) =>
          (match UnfoldSlots(h, slots, levels - 1)
           case None => None
           case Some(vs) => Some(Arr(vs)))
        case PlainNode(properties) =>
          match UnfoldProperties(h, properties, levels - 1)
          case None => None
          case Some(fs) => Some(Obj(fs))
  }

  function UnfoldSlots(h: Heap, slots: seq<Slot>, levels: nat): Option<seq<Value>>
    decreases levels, |slots| + 1
  {
    if slots == [] then Some([])
    else if slots[0].Accessors? then None
    else
      match (Unfold(h, SlotItem(slots[0]), levels), UnfoldSlots(h, slots[1..], levels))
      case (Some(v), Some(vs)) => Some([v] + vs)
      case _ => None
  }

  function UnfoldProperties(h: Heap, properties: seq<Property>, levels: nat): Option<seq<Field>>
    decreases levels, |properties| + 1
  {
    if properties == [] then Some([])
    else if properties[0].slot.Accessors? then None
    else if properties[0].slot.item.Undefined? then UnfoldProperties(h, properties[1..], levels)
    else
      match (Unfold(h, properties[0].slot.item, levels), UnfoldProperties(h, properties[1..], levels))
      case (Some(v), Some(fs)) => Some([Field(properties[0].key, v)] + fs)
      case _ => None
  }

  /** Values and object keys, each counted once. */
  function Nodes(v: Value): nat
    decreases v, 1
  {
    match v
    case Arr(items) => 1 + NodesOfItems(items)
    case Obj(fields) => 1 + NodesOfFields(fields)
    case _ => 1
  }

  function NodesOfItems(items: seq<Value>): nat
    decreases items, 0
  {
    if items == [] then 0 else Nodes(items[0]) + NodesOfItems(items[1..])
  }

  function NodesOfFields(fields: seq<Field>): nat
    decreases fields, 0
  {
    if fields == [] then 0 else 1 + Nodes(fields[0].value) + NodesOfFields(fields[1..])
  }

  /** The bytes of JSON.stringify(v) in UTF-8. */
  function JsonBytes(v: Value): nat {
    Utf8Length(Print(v))
  }

  function StringBytes(s: Text): nat {
    Utf8Length(QuoteTo(false, s, []))
  }

  // ---------------------------------------------------------------- byte lengths add up

  /** What escaping adds to the bytes of a string. */
  function Extra(s: Text): nat {
    if s == [] then 0
    else if s[0] == QUOTE || s[0] == BACKSLASH then 1 + Extra(s[1..])
    else if s[0] < 0x20 then
      (if s[0] == 8 || s[0] == 9 || s[0] == 10 || s[0] == 12 || s[0] == 13 then 1 else 5) + Extra(s[1..])
    else if StartsWithPair(s) then Extra(s[2..])
    else if IsSurrogate(s[0]) then 3 + Extra(s[1..])
    else Extra(s[1..])
  }

  lemma FrontUnit(u: Unit, rest: Text)
    requires !IsHigh(u)
    ensures Utf8Length([u] + rest) == UnitBytes(u) + Utf8Length(rest)
  {
    assert ([u] + rest)[1..] == rest;
  }

  lemma {:induction false} FrontAscii(a: Text, rest: Text)
    requires IsAscii(a)
    ensures Utf8Length(a + rest) == |a| + Utf8Length(rest)
  {
    if a == [] {
      assert a + rest == rest;
    } else {
      assert a + rest == [a[0]] + (a[1..] + rest);
      FrontUnit(a[0], a[1..] + rest);
      FrontAscii(a[1..], rest);
    }
  }

  lemma AsciiBytes(a: Text)
    requires IsAscii(a)
    ensures Utf8Length(a) == |a|
  {
    FrontAscii(a, []);
    assert a + [] == a;
  }

  lemma FrontPair(high: Unit, low: Unit, rest: Text)
    requires IsHigh(high) && IsLow(low)
    ensures Utf8Length([high] + ([low] + rest)) == 4 + Utf8Length(rest)
  {
    var whole := [high] + ([low] + rest);
    assert whole[2..] == rest && StartsWithPair(whole);
  }

  lemma EscapedUnitBytes(u: Unit, rest: Text)
    ensures Utf8Length(EscapeUnit(false, u) + rest) == UnitBytes(u) + Extra([u]) + Utf8Length(rest)
  {
    assert [u][1..] == [];
    if u == QUOTE || u == BACKSLASH || u < 0x20 || IsSurrogate(u) {
      assert IsAscii(EscapeUnit(false, u));
      FrontAscii(EscapeUnit(false, u), rest);
    } else {
      FrontUnit(u, rest);
    }
  }

  /** The escaped length is the plain one and the extras, surrogates and control characters included. */
  lemma {:induction false} EscapedBytes(s: Text, rest: Text)
    ensures Utf8Length(EscapeTo(false, s, rest)) == Utf8Length(s) + Extra(s) + Utf8Length(rest)
    decreases |s|
  {
    if s == [] {
    } else if StartsWithPair(s) {
      hide EscapeUnit, UnitBytes;
      EscapedBytes(s[2..], rest);
      FrontPair(s[0], s[1], EscapeTo(false, s[2..], rest));
    } else {
      hide EscapeUnit, UnitBytes;
      EscapedBytes(s[1..], rest);
      EscapedUnitBytes(s[0], EscapeTo(false, s[1..], rest));
      assert [s[0]][1..] == [];
    }
  }

  lemma QuotedBytes(s: Text, rest: Text)
    ensures Utf8Length(QuoteTo(false, s, rest)) == StringBytes(s) + Utf8Length(rest)
    ensures StringBytes(s) == Utf8Length(s) + Extra(s) + 2
  {
    hide EscapeTo;
    FrontUnit(QUOTE, EscapeTo(false, s, [QUOTE] + rest));
    FrontUnit(QUOTE, EscapeTo(false, s, [QUOTE]));
    FrontUnit(QUOTE, rest);
    FrontUnit(QUOTE, []);
    EscapedBytes(s, [QUOTE] + rest);
    EscapedBytes(s, [QUOTE]);
    assert [QUOTE] + [] == [QUOTE];
  }

  predicate AsciiNumbers(v: Value) {
    match v
    case Num(n) => IsAscii(n.text)
    case Arr(items) => forall i :: 0 <= i < |items| ==> AsciiNumbers(items[i])
    case Obj(fields) => forall i :: 0 <= i < |fields| ==> AsciiNumbers(fields[i].value)
    case _ => true
  }

  function ItemsBytes(items: seq<Value>, first: bool): nat {
    if items == [] then 0
    else (if first then 0 else 1) + JsonBytes(items[0]) + ItemsBytes(items[1..], false)
  }

  function FieldsBytes(fields: seq<Field>, first: bool): nat {
    if fields == [] then 0
    else
      (if first then 0 else 1) + StringBytes(fields[0].key) + 1 + JsonBytes(fields[0].value) +
      FieldsBytes(fields[1..], false)
  }

  /** Printing in front of `rest` adds exactly the bytes of the value; a container adds two to its parts. */
  lemma {:induction false} PrintedBytes(v: Value, rest: Text)
    requires AsciiNumbers(v)
    ensures Utf8Length(PrintTo(false, v, rest)) == JsonBytes(v) + Utf8Length(rest)
    ensures v.Arr? ==> JsonBytes(v) == 2 + ItemsBytes(v.items, true)
    ensures v.Obj? ==> JsonBytes(v) == 2 + FieldsBytes(v.fields, true)
    decreases v, 1
  {
    hide QuoteTo, EscapeTo, Utf8Length, UnitBytes;
    match v
    case Null => WordBytes(Lit("null"), rest);
    case Bool(b) => if b { WordBytes(Lit("true"), rest); } else { WordBytes(Lit("false"), rest); }
    case Num(n) => WordBytes(n.text, rest);
    case Str(s) => QuotedBytes(s, rest);
    case Arr(items) =>
      Bracketed(0x5B, PrintItemsTo(false, items, [0x5D] + rest), 0x5D, rest);
      Bracketed(0x5B, PrintItemsTo(false, items, [0x5D] + []), 0x5D, []);
      PrintedItems(items, [0x5D] + rest);
      PrintedItems(items, [0x5D] + []);
    case Obj(fields) =>
      Bracketed(0x7B, PrintFieldsTo(false, fields, [0x7D] + rest), 0x7D, rest);
      Bracketed(0x7B, PrintFieldsTo(false, fields, [0x7D] + []), 0x7D, []);
      PrintedFields(fields, [0x7D] + rest);
      PrintedFields(fields, [0x7D] + []);
  }

  lemma WordBytes(word: Text, rest: Text)
    requires IsAscii(word)
    ensures Utf8Length(word + rest) == Utf8Length(word + []) + Utf8Length(rest)
  {
    FrontAscii(word, rest);
    FrontAscii(word, []);
  }

  lemma Bracketed(open: Unit, inner: Text, close: Unit, rest: Text)
    requires open < 0x80 && close < 0x80
    ensures Utf8Length([open] + inner) == 1 + Utf8Length(inner)
    ensures Utf8Length([close] + rest) == 1 + Utf8Length(rest)
    ensures Utf8Length([]) == 0
  {
    FrontUnit(open, inner);
    FrontUnit(close, rest);
  }

  lemma {:induction false} PrintedItems(items: seq<Value>, rest: Text)
    requires forall i :: 0 <= i < |items| ==> AsciiNumbers(items[i])
    ensures Utf8Length(PrintItemsTo(false, items, rest)) == ItemsBytes(items, true) + Utf8Length(rest)
    ensures items != [] ==> ItemsBytes(items, false) == 1 + ItemsBytes(items, true)
    decreases items, 0
  {
    hide PrintTo, Utf8Length, JsonBytes;
    if |items| == 1 {
      PrintedBytes(items[0], rest);
      assert items[1..] == [];
    } else if items != [] {
      var after := PrintItemsTo(false, items[1..], rest);
      PrintedItems(items[1..], rest);
      Bracketed(0x2C, after, 0x2C, after);
      PrintedBytes(items[0], [0x2C] + after);
    }
  }

  lemma {:induction false} PrintedFields(fields: seq<Field>, rest: Text)
    requires forall i :: 0 <= i < |fields| ==> AsciiNumbers(fields[i].value)
    ensures Utf8Length(PrintFieldsTo(false, fields, rest)) == FieldsBytes(fields, true) + Utf8Length(rest)
    ensures fields != [] ==> FieldsBytes(fields, false) == 1 + FieldsBytes(fields, true)
    decreases fields, 0
  {
    hide PrintTo, Utf8Length, QuoteTo, JsonBytes, StringBytes;
    if fields != [] {
      var key, value := fields[0].key, fields[0].value;
      if |fields| == 1 {
        PrintedField(key, value, rest);
        assert fields[1..] == [];
      } else {
        var after := PrintFieldsTo(false, fields[1..], rest);
        PrintedFields(fields[1..], rest);
        Bracketed(0x2C, after, 0x2C, after);
        PrintedField(key, value, [0x2C] + after);
      }
    }
  }

  lemma {:induction false} PrintedField(key: Text, value: Value, rest: Text)
    requires AsciiNumbers(value)
    ensures Utf8Length(QuoteTo(false, key, [0x3A] + PrintTo(false, value, rest))) ==
            StringBytes(key) + 1 + JsonBytes(value) + Utf8Length(rest)
    decreases value, 2
  {
    hide PrintTo, Utf8Length, QuoteTo, JsonBytes, StringBytes;
    PrintedBytes(value, rest);
    Bracketed(0x3A, PrintTo(false, value, rest), 0x3A, rest);
    QuotedBytes(key, [0x3A] + PrintTo(false, value, rest));
  }

  // ---------------------------------------------------------------- levels and cycles

  function Deeper(a: nat, b: nat): nat {
    if a < b then b else a
  }

  /** How many levels of values nest in `v`; a value without parts is one level. */
  function Levels(v: Value): (n: nat)
    decreases v, 1
  {
    match v
    case Arr(items) => 1 + LevelsOfItems(items)
    case Obj(fields) => 1 + LevelsOfFields(fields)
    case _ => 1
  }

  function LevelsOfItems(items: seq<Value>): nat
    decreases items, 0
  {
    if items == [] then 0 else Deeper(Levels(items[0]), LevelsOfItems(items[1..]))
  }

  function LevelsOfFields(fields: seq<Field>): nat
    decreases fields, 0
  {
    if fields == [] then 0 else Deeper(Levels(fields[0].value), LevelsOfFields(fields[1..]))
  }

  /**
   The level limit decides only whether an item has a value, not which one: with another limit
   it has the same value exactly when the value's nesting is within that limit.
   */
  lemma {:induction false} LevelsExact(h: Heap, item: Item, levels: nat, other: nat)
    requires Unfold(h, item, levels).Some?
    ensures var v := Unfold(h, item, levels).value;
            Unfold(h, item, other) == if Levels(v) <= other then Some(v) else None
    decreases levels, 0
  {
    if item.Reference? && other > 0 {
      match h(item.id)
      case ArrayNode(slots) => LevelsOfSlotsExact(h, slots, levels - 1, other - 1);
      case PlainNode(properties) => LevelsOfPropertiesExact(h, properties, levels - 1, other - 1);
    }
  }

  // ---------------------------------------------------------------- the same without a limit

  /** JSON.stringify lists every property that is not undefined data. */
  function Listed(properties: seq<Property>): seq<Property> {
    if properties == [] then []
    else (if properties[0].slot == Data(Undefined) then [] else [properties[0]]) + Listed(properties[1..])
  }

  /** In an array, what is undefined or missing counts as null. */
  ghost predicate SlotMeans(h: Heap, slot: Slot, v: Value)
    decreases v, 1
  {
    slot.Data? && if slot.item == Undefined then v == Null else Means(h, slot.item, v)
  }

  /** The item stands for the JSON value: told from the value, part by part. */
  ghost predicate Means(h: Heap, item: Item, v: Value)
    decreases v, 0
  {
    match v
    case Null => item == NullItem || item == NonFinite
    case Bool(b) => item == Truth(b)
    case Num(n) => item.Finite? && item.n == n
    case Str(s) => item == Words(s)
    case Arr(items) =>
      && item.Reference? && h(item.id).ArrayNode? && |h(item.id).slots| == |items|
      && forall i :: 0 <= i < |items| ==> SlotMeans(h, h(item.id).slots[i], items[i])
    case Obj(fields) =>
      && item.Reference? && h(item.id).PlainNode? && |Listed(h(item.id).properties)| == |fields|
      && forall i :: 0 <= i < |fields| ==> FieldMeans(h, Listed(h(item.id).properties)[i], fields[i])
  }

  ghost predicate FieldMeans(h: Heap, property: Property, f: Field)
    decreases f, 1
  {
    property.key == f.key && property.slot.Data? && Means(h, property.slot.item, f.value)
  }

  /** An item has a value within some levels exactly if it stands for that value and the value nests no deeper. */
  lemma {:induction false} UnfoldExact(h: Heap, item: Item, levels: nat, v: Value)
    ensures Unfold(h, item, levels) == Some(v) <==> Means(h, item, v) && Levels(v) <= levels
    decreases levels, 0
  {
    if levels > 0 && item.Reference? {
      match h(item.id)
      case ArrayNode(slots) =>
        if v.Arr? { SlotsExact(h, slots, levels - 1, v.items); }
      case PlainNode(properties) =>
        if v.Obj? { PropertiesExact(h, properties, levels - 1, v.fields); }
      case ExoticNode =>
    }
  }

  lemma {:induction false} SlotsExact(h: Heap, slots: seq<Slot>, levels: nat, vs: seq<Value>)
    ensures UnfoldSlots(h, slots, levels) == Some(vs) <==>
            && |slots| == |vs| && (forall i :: 0 <= i < |vs| ==> SlotMeans(h, slots[i], vs[i]))
            && LevelsOfItems(vs) <= levels
    decreases levels, |slots| + 1
  {
    if slots != [] && vs != [] {
      SlotsExact(h, slots[1..], levels, vs[1..]);
      if slots[0].Data? {
        UnfoldExact(h, SlotItem(slots[0]), levels, vs[0]);
      }
      if |slots| == |vs| {
        SlotsSplit(h, slots, vs);
      }
      hide Means, Unfold;
      if UnfoldSlots(h, slots, levels).Some? {
        assert UnfoldSlots(h, slots, levels).value[1..] == UnfoldSlots(h, slots[1..], levels).value;
      }
      assert [vs[0]] + vs[1..] == vs;
    }
  }

  lemma SlotsSplit(h: Heap, slots: seq<Slot>, vs: seq<Value>)
    requires slots != [] && vs != [] && |slots| == |vs|
    ensures (forall i :: 0 <= i < |vs| ==> SlotMeans(h, slots[i], vs[i])) <==>
            SlotMeans(h, slots[0], vs[0]) && forall i :: 0 <= i < |vs[1..]| ==> SlotMeans(h, slots[1..][i], vs[1..][i])
  {
    hide SlotMeans;
    assert forall i :: 0 < i < |vs| ==> slots[i] == slots[1..][i - 1] && vs[i] == vs[1..][i - 1];
  }

  lemma {:induction false} PropertiesExact(h: Heap, properties: seq<Property>, levels: nat, fs: seq<Field>)
    ensures UnfoldProperties(h, properties, levels) == Some(fs) <==>
            && |Listed(properties)| == |fs| && (forall i :: 0 <= i < |fs| ==> FieldMeans(h, Listed(properties)[i], fs[i]))
            && LevelsOfFields(fs) <= levels
    decreases levels, |properties| + 1
  {
    if properties != [] {
      var first, rest, listed := properties[0], Listed(properties[1..]), Listed(properties);
      if first.slot == Data(Undefined) {
        PropertiesExact(h, properties[1..], levels, fs);
        assert listed == rest;
      } else {
        assert listed == [first] + rest;
        if fs != [] {
          FieldsSplit(h, first, rest, fs);
          PropertiesExact(h, properties[1..], levels, fs[1..]);
          if first.slot.Data? {
            UnfoldExact(h, first.slot.item, levels, fs[0].value);
          }
          hide Means, Unfold, Listed;
          if UnfoldProperties(h, properties, levels).Some? {
            assert UnfoldProperties(h, properties, levels).value[1..] == UnfoldProperties(h, properties[1..], levels).value;
          }
          assert [fs[0]] + fs[1..] == fs;
        }
      }
    }
  }

  lemma FieldsSplit(h: Heap, first: Property, rest: seq<Property>, fs: seq<Field>)
    requires fs != []
    ensures (|[first] + rest| == |fs| && forall i :: 0 <= i < |fs| ==> FieldMeans(h, ([first] + rest)[i], fs[i])) <==>
            && FieldMeans(h, first, fs[0])
            && |rest| == |fs[1..]| && forall i :: 0 <= i < |fs[1..]| ==> FieldMeans(h, rest[i], fs[1..][i])
  {
    hide FieldMeans;
    var all := [first] + rest;
    assert all[0] == first;
    assert forall i :: 0 < i < |all| ==> all[i] == rest[i - 1];
    assert forall i :: 0 < i < |fs| ==> fs[i] == fs[1..][i - 1];
  }

  lemma {:induction false} LevelsOfSlotsExact(h: Heap, slots: seq<Slot>, levels: nat, other: nat)
    requires UnfoldSlots(h, slots, levels).Some?
    ensures var vs := UnfoldSlots(h, slots, levels).value;
            UnfoldSlots(h, slots, other) == if LevelsOfItems(vs) <= other then Some(vs) else None
    decreases levels, |slots| + 1
  {
    if slots != [] {
      LevelsExact(h, SlotItem(slots[0]), levels, other);
      LevelsOfSlotsExact(h, slots[1..], levels, other);
      var vs := UnfoldSlots(h, slots, levels).value;
      assert vs[1..] == UnfoldSlots(h, slots[1..], levels).value;
    }
  }

  lemma {:induction false} LevelsOfPropertiesExact(h: Heap, properties: seq<Property>, levels: nat, other: nat)
    requires UnfoldProperties(h, properties, levels).Some?
    ensures var fs := UnfoldProperties(h, properties, levels).value;
            UnfoldProperties(h, properties, other) == if LevelsOfFields(fs) <= other then Some(fs) else None
    decreases levels, |properties| + 1
  {
    if properties != [] {
      LevelsOfPropertiesExact(h, properties[1..], levels, other);
      if !properties[0].slot.item.Undefined? {
        LevelsExact(h, properties[0].slot.item, levels, other);
        var fs := UnfoldProperties(h, properties, levels).value;
        assert fs[1..] == UnfoldProperties(h, properties[1..], levels).value;
      }
    }
  }

  /** The object lies strictly above the item: where the object has a value, the item has one in fewer levels. */
  ghost predicate Above(h: Heap, id: nat, item: Item) {
    forall levels: nat | levels > 0 ::
      Unfold(h, Reference(id), levels).Some? ==> Unfold(h, item, levels - 1).Some?
  }

  /** An object above itself denotes nothing, whatever the limit on levels. */
  lemma {:induction false} CyclesDenoteNothing(h: Heap, id: nat, levels: nat)
    requires Above(h, id, Reference(id))
    ensures Unfold(h, Reference(id), levels).None?
  {
    if levels > 0 {
      CyclesDenoteNothing(h, id, levels - 1);
    }
  }

  /** Children of a node, as the traversal visits them. */
  predicate IsChild(node: Node, item: Item) {
    match node
    case ArrayNode(slots) => exists i :: 0 <= i < |slots| && slots[i].Data? && item == SlotItem(slots[i])
    case PlainNode(properties) =>
      exists i :: 0 <= i < |properties| && properties[i].slot == Data(item) && !item.Undefined?
    case ExoticNode => false
  }

  lemma ParentAbove(h: Heap, id: nat, item: Item)
    requires IsChild(h(id), item)
    ensures Above(h, id, item)
  {
    forall levels: nat | levels > 0 && Unfold(h, Reference(id), levels).Some? ensures Unfold(h, item, levels - 1).Some? {
      match h(id)
      case ArrayNode(slots) =>
        var i :| 0 <= i < |slots| && slots[i].Data? && item == SlotItem(slots[i]);
        SlotUnfolds(h, slots, levels - 1, i);
      case PlainNode(properties) =>
        var i :| 0 <= i < |properties| && properties[i].slot == Data(item) && !item.Undefined?;
        PropertyUnfolds(h, properties, levels - 1, i);
    }
  }

  lemma {:induction false} SlotUnfolds(h: Heap, slots: seq<Slot>, levels: nat, i: nat)
    requires i < |slots| && UnfoldSlots(h, slots, levels).Some?
    ensures slots[i].Data? && Unfold(h, SlotItem(slots[i]), levels).Some?
  {
    if i > 0 {
      SlotUnfolds(h, slots[1..], levels, i - 1);
    }
  }

  lemma {:induction false} PropertyUnfolds(h: Heap, properties: seq<Property>, levels: nat, i: nat)
    requires i < |properties| && UnfoldProperties(h, properties, levels).Some?
    ensures properties[i].slot.Data?
    ensures !properties[i].slot.item.Undefined? ==> Unfold(h, properties[i].slot.item, levels).Some?
  {
    if i > 0 {
      PropertyUnfolds(h, properties[1..], levels, i - 1);
    }
  }

  lemma AboveChild(h: Heap, a: nat, id: nat, item: Item)
    requires Above(h, a, Reference(id)) && IsChild(h(id), item)
    ensures Above(h, a, item)
  {
    ParentAbove(h, id, item);
    forall levels: nat | levels > 0 && Unfold(h, Reference(a), levels).Some? ensures Unfold(h, item, levels - 1).Some? {
      assert Unfold(h, Reference(id), levels - 1).Some?;
      assert Unfold(h, item, levels - 1 - 1).Some?;
      LevelsExact(h, item, levels - 2, levels - 1);
      LevelsExact(h, item, levels - 2, levels - 2);
    }
  }

  // ---------------------------------------------------------------- costs of what is left

  const MAX_NODES: nat := 100_000
  const MAX_DEPTH: nat := 32

  datatype Cost = Cost(nodes: nat, bytes: nat)

  function Plus(a: Option<Cost>, b: Option<Cost>): Option<Cost> {
    match (a, b)
    case (Some(x), Some(y)) => Some(Cost(x.nodes + y.nodes, x.bytes + y.bytes))
    case _ => None
  }

  function ItemCost(h: Heap, item: Item, levels: nat): Option<Cost> {
    match Unfold(h, item, levels)
    case None => None
    case Some(v) => Some(Cost(Nodes(v), JsonBytes(v)))
  }

  function SlotsCost(h: Heap, slots: seq<Slot>, levels: nat, first: bool): Option<Cost> {
    match UnfoldSlots(h, slots, levels)
    case None => None
    case Some(vs) => Some(Cost(NodesOfItems(vs), ItemsBytes(vs, first)))
  }

  function PropertiesCost(h: Heap, properties: seq<Property>, levels: nat, first: bool): Option<Cost> {
    match UnfoldProperties(h, properties, levels)
    case None => None
    case Some(fs) => Some(Cost(NodesOfFields(fs), FieldsBytes(fs, first)))
  }

  function Comma(first: bool): nat {
    if first then 0 else 1
  }

  lemma {:induction false} NextSlot(h: Heap, slots: seq<Slot>, levels: nat, first: bool)
    requires slots != []
    ensures SlotsCost(h, slots, levels, first) ==
            if slots[0].Accessors? then None
            else Plus(Some(Cost(0, Comma(first))), Plus(ItemCost(h, SlotItem(slots[0]), levels),
                   SlotsCost(h, slots[1..], levels, false)))
  {
    hide Unfold, Nodes, JsonBytes;
    if UnfoldSlots(h, slots, levels).Some? {
      var vs := UnfoldSlots(h, slots, levels).value;
      assert vs[1..] == UnfoldSlots(h, slots[1..], levels).value;
    }
  }

  lemma {:induction false} NextProperty(h: Heap, properties: seq<Property>, levels: nat, first: bool)
    requires properties != []
    ensures PropertiesCost(h, properties, levels, first) ==
            if properties[0].slot.Accessors? then None
            else if properties[0].slot.item.Undefined? then PropertiesCost(h, properties[1..], levels, first)
            else Plus(Some(Cost(1, Comma(first) + StringBytes(properties[0].key) + 1)),
                   Plus(ItemCost(h, properties[0].slot.item, levels), PropertiesCost(h, properties[1..], levels, false)))
  {
    hide Unfold, Nodes, JsonBytes, StringBytes;
    if UnfoldProperties(h, properties, levels).Some? && !properties[0].slot.item.Undefined? {
      var fs := UnfoldProperties(h, properties, levels).value;
      assert fs[1..] == UnfoldProperties(h, properties[1..], levels).value;
    }
  }

  /** Numbers of an unfolded item are decimal. */
  lemma {:induction false} UnfoldedAscii(h: Heap, item: Item, levels: nat)
    requires Unfold(h, item, levels).Some?
    ensures AsciiNumbers(Unfold(h, item, levels).value)
    decreases levels, 0
  {
    if item.Reference? {
      match h(item.id)
      case ArrayNode(slots) => UnfoldedSlotsAscii(h, slots, levels - 1);
      case PlainNode(properties) => UnfoldedPropertiesAscii(h, properties, levels - 1);
    }
  }

  lemma {:induction false} UnfoldedSlotsAscii(h: Heap, slots: seq<Slot>, levels: nat)
    requires UnfoldSlots(h, slots, levels).Some?
    ensures var vs := UnfoldSlots(h, slots, levels).value; forall i :: 0 <= i < |vs| ==> AsciiNumbers(vs[i])
    decreases levels, |slots| + 1
  {
    if slots != [] {
      UnfoldedAscii(h, SlotItem(slots[0]), levels);
      UnfoldedSlotsAscii(h, slots[1..], levels);
    }
  }

  lemma {:induction false} UnfoldedPropertiesAscii(h: Heap, properties: seq<Property>, levels: nat)
    requires UnfoldProperties(h, properties, levels).Some?
    ensures var fs := UnfoldProperties(h, properties, levels).value; forall i :: 0 <= i < |fs| ==> AsciiNumbers(fs[i].value)
    decreases levels, |properties| + 1
  {
    if properties != [] {
      UnfoldedPropertiesAscii(h, properties[1..], levels);
      if !properties[0].slot.item.Undefined? {
        UnfoldedAscii(h, properties[0].slot.item, levels);
      }
    }
  }

  /** A container costs one node and two bytes more than its parts. */
  lemma {:induction false} ContainerCost(h: Heap, id: nat, levels: nat)
    requires levels > 0
    ensures h(id).ArrayNode? ==>
              ItemCost(h, Reference(id), levels) == Plus(Some(Cost(1, 2)), SlotsCost(h, h(id).slots, levels - 1, true))
    ensures h(id).PlainNode? ==>
              ItemCost(h, Reference(id), levels) ==
              Plus(Some(Cost(1, 2)), PropertiesCost(h, h(id).properties, levels - 1, true))
  {
    hide JsonBytes, AsciiNumbers, ItemsBytes, FieldsBytes;
    if Unfold(h, Reference(id), levels).Some? {
      UnfoldedAscii(h, Reference(id), levels);
      PrintedBytes(Unfold(h, Reference(id), levels).value, []);
    }
  }

  /** An item without parts. */
  function LeafBytes(item: Item): Option<nat> {
    match item
    case NullItem => Some(4)
    case Truth(b) => Some(if b then 4 else 5)
    case Finite(n) => Some(|n.text|)
    case NonFinite => Some(4)
    case Words(s) => Some(StringBytes(s))
    case _ => None
  }

  lemma LeafCost(h: Heap, item: Item, levels: nat)
    requires levels > 0 && !item.Reference?
    ensures ItemCost(h, item, levels) ==
            match LeafBytes(item)
            case None => None
            case Some(bytes) => Some(Cost(1, bytes))
  {
    hide QuoteTo, Utf8Length;
    match item
    case NullItem => WordLength(Lit("null"));
    case NonFinite => WordLength(Lit("null"));
    case Truth(b) => WordLength(if b then Lit("true") else Lit("false"));
    case Finite(n) => WordLength(n.text);
    case _ =>
  }

  lemma WordLength(word: Text)
    requires IsAscii(word)
    ensures Utf8Length(word + []) == |word|
  {
    AsciiBytes(word);
    assert word + [] == word;
  }

  // ---------------------------------------------------------------- the traversal

  datatype Limit = EventBytes | Complexity | NonJson | Cyclic | AccessorData

  /** What the counters come to once a cost is paid. */
  function Total(nodes: nat, bytes: nat, cost: Option<Cost>): Option<Cost> {
    Plus(Some(Cost(nodes, bytes)), cost)
  }

  /** Success means that the total is within bounds, and each failure that it is not, for the reason given. */
  predicate Verdict(e: Option<Limit>, total: Option<Cost>, maxBytes: int) {
    match e
    case None => total.Some? && total.value.nodes <= MAX_NODES && total.value.bytes <= maxBytes
    case Some(EventBytes) => total.None? || total.value.bytes > maxBytes
    case Some(Complexity) => total.None? || total.value.nodes > MAX_NODES
    case Some(_) => total.None?
  }

  lemma NoLevels(h: Heap, item: Item)
    ensures ItemCost(h, item, 0).None?
  {
  }

  lemma OneNodeAtLeast(h: Heap, item: Item, levels: nat)
    ensures ItemCost(h, item, levels).Some? ==> ItemCost(h, item, levels).value.nodes >= 1
  {
  }

  lemma ExoticCost(h: Heap, id: nat, levels: nat)
    requires h(id).ExoticNode?
    ensures ItemCost(h, Reference(id), levels).None?
  {
  }

  lemma CycleCost(h: Heap, id: nat, levels: nat)
    requires Above(h, id, Reference(id))
    ensures ItemCost(h, Reference(id), levels).None?
  {
    CyclesDenoteNothing(h, id, levels);
  }

  lemma ChildrenBelow(h: Heap, ancestors: set<nat>, id: nat)
    requires forall a :: a in ancestors ==> Above(h, a, Reference(id))
    ensures forall a, item :: a in ancestors + {id} && IsChild(h(id), item) ==> Above(h, a, item)
  {
    forall a, item | a in ancestors + {id} && IsChild(h(id), item) ensures Above(h, a, item) {
      if a in ancestors {
        AboveChild(h, a, id, item);
      } else {
        ParentAbove(h, id, item);
      }
    }
  }

  lemma PartsEmpty(h: Heap, levels: nat, first: bool)
    ensures SlotsCost(h, [], levels, first) == Some(Cost(0, 0))
    ensures PropertiesCost(h, [], levels, first) == Some(Cost(0, 0))
  {
  }

  /** The state shared by the closures of `boundedJsonBytes`. */
  class ByteMeter {
    const h: Heap
    const maxBytes: int
    var bytes: nat
    var nodes: nat
    var ancestors: set<nat>

    constructor (h: Heap, maxBytes: int)
      ensures this.h == h && this.maxBytes == maxBytes && bytes == 0 && nodes == 0 && ancestors == {}
    {
      this.h, this.maxBytes, bytes, nodes, ancestors := h, maxBytes, 0, 0, {};
    }

    method Add(count: nat) returns (e: Option<Limit>)
      modifies this`bytes
      ensures bytes == old(bytes) + count
      ensures e == if bytes > maxBytes then Some(EventBytes) else None
    {
      bytes := bytes + count;
      e := if bytes > maxBytes then Some(EventBytes) else None;
    }

    /** string: byte length first, then what escaping adds, stopping as soon as the limit is passed. */
    method AddString(text: Text) returns (e: Option<Limit>)
      modifies this`bytes
      ensures e == if old(bytes) + StringBytes(text) > maxBytes then Some(EventBytes) else None
      ensures e.None? ==> bytes == old(bytes) + StringBytes(text)
    {
      hide QuoteTo, StringBytes, Utf8Length;
      QuotedBytes(text, []);
      e := Add(Utf8Length(text) + 2);
      if e.Some? { return; }
      var index := 0;
      while index < |text|
        invariant index <= |text| && bytes <= maxBytes
        invariant bytes + Extra(text[index..]) == old(bytes) + StringBytes(text)
        invariant e.None?
      {
        var code := text[index];
        ghost var left := text[index..];
        assert left[1..] == text[index + 1..];
        assert StartsWithPair(left) ==> left[2..] == text[index + 2..];
        if code == QUOTE || code == BACKSLASH {
          e := Add(1);
        } else if code < 0x20 {
          e := Add(if code == 8 || code == 9 || code == 10 || code == 12 || code == 13 then 1 else 5);
        } else if IsHigh(code) && index + 1 < |text| && IsLow(text[index + 1]) {
          index := index + 1;
        } else if IsSurrogate(code) {
          e := Add(3);
        }
        if e.Some? { return; }
        index := index + 1;
      }
    }

    /** An item that is not an object. */
    method VisitLeaf(item: Item) returns (e: Option<Limit>)
      requires !item.Reference?
      modifies this`bytes
      ensures LeafBytes(item).None? ==> e == Some(NonJson)
      ensures LeafBytes(item).Some? ==>
                e == if old(bytes) + LeafBytes(item).value > maxBytes then Some(EventBytes) else None
      ensures e.None? ==> bytes == old(bytes) + LeafBytes(item).value
    {
      match item
      case NullItem => e := Add(4);
      case Words(s) => e := AddString(s);
      case Truth(b) => e := Add(if b then 4 else 5);
      case Finite(n) => e := Add(|n.text|);
      case NonFinite => e := Add(4);
      case _ => e := Some(NonJson);
    }

    method Visit(item: Item, depth: nat) returns (e: Option<Limit>)
      requires depth <= MAX_DEPTH + 1
      requires forall a :: a in ancestors ==> Above(h, a, item)
      modifies this
      ensures Verdict(e, Total(old(nodes), old(bytes), ItemCost(h, item, MAX_DEPTH + 1 - depth)), maxBytes)
      ensures e.None? ==>
                Total(old(nodes), old(bytes), ItemCost(h, item, MAX_DEPTH + 1 - depth)) == Some(Cost(nodes, bytes))
      ensures e.None? ==> ancestors == old(ancestors)
      decreases MAX_DEPTH + 1 - depth, 2
    {
      hide ItemCost, SlotsCost, PropertiesCost, Above, LeafBytes, IsChild;
      ghost var levels := MAX_DEPTH + 1 - depth;
      NoLevels(h, item);
      OneNodeAtLeast(h, item, levels);
      nodes := nodes + 1;
      if nodes > MAX_NODES || depth > MAX_DEPTH {
        return Some(Complexity);
      }
      if !item.Reference? {
        LeafCost(h, item, levels);
        e := VisitLeaf(item);
        return;
      }
      var id := item.id;
      if id in ancestors {
        CycleCost(h, id, levels);
        return Some(Cyclic);
      }
      if h(id).ExoticNode? {
        ExoticCost(h, id, levels);
        return Some(NonJson);
      }
      ContainerCost(h, id, levels);
      ChildrenBelow(h, ancestors, id);
      assert ancestors + {id} - {id} == ancestors;
      ancestors := ancestors + {id};
      e := Add(2);
      if e.Some? { return; }
      match h(id) {
        case ArrayNode(slots) => e := VisitSlots(slots, id, depth);
        case PlainNode(properties) => e := VisitProperties(properties, id, depth);
      }
      if e.Some? { return; }
      ancestors := ancestors - {id};
    }

    /** The loop over the elements of an array. */
    method VisitSlots(slots: seq<Slot>, id: nat, depth: nat) returns (e: Option<Limit>)
      requires depth <= MAX_DEPTH && h(id) == ArrayNode(slots)
      requires bytes <= maxBytes && nodes <= MAX_NODES
      requires forall a, item :: a in ancestors && IsChild(h(id), item) ==> Above(h, a, item)
      modifies this
      ensures Verdict(e, Total(old(nodes), old(bytes), SlotsCost(h, slots, MAX_DEPTH - depth, true)), maxBytes)
      ensures e.None? ==>
                Total(old(nodes), old(bytes), SlotsCost(h, slots, MAX_DEPTH - depth, true)) == Some(Cost(nodes, bytes))
      ensures e.None? ==> ancestors == old(ancestors)
      decreases MAX_DEPTH + 1 - depth, 1
    {
      hide ItemCost, SlotsCost, Above;
      var count := 0;
      ghost var levels := MAX_DEPTH - depth;
      ghost var total := Total(nodes, bytes, SlotsCost(h, slots, levels, true));
      PartsEmpty(h, levels, slots == []);
      assert slots[0..] == slots;
      e := None;
      for i := 0 to |slots|
        invariant e.None? && ancestors == old(ancestors) && (count == 0 <==> i == 0)
        invariant bytes <= maxBytes && nodes <= MAX_NODES
        invariant Total(nodes, bytes, SlotsCost(h, slots[i..], levels, i == 0)) == total
      {
        NextSlot(h, slots[i..], levels, i == 0);
        assert slots[i..][1..] == slots[i + 1..];
        if slots[i].Accessors? {
          return Some(AccessorData);
        }
        var item := SlotItem(slots[i]);
        assert IsChild(h(id), item);
        if count != 0 {
          e := Add(1);
          if e.Some? { return; }
        }
        count := count + 1;
        e := Visit(item, depth + 1);
        if e.Some? { return; }
      }
    }

    /** The loop over the own properties of a plain object. */
    method VisitProperties(properties: seq<Property>, id: nat, depth: nat) returns (e: Option<Limit>)
      requires depth <= MAX_DEPTH && h(id) == PlainNode(properties)
      requires bytes <= maxBytes && nodes <= MAX_NODES
      requires forall a, item :: a in ancestors && IsChild(h(id), item) ==> Above(h, a, item)
      modifies this
      ensures Verdict(e, Total(old(nodes), old(bytes), PropertiesCost(h, properties, MAX_DEPTH - depth, true)), maxBytes)
      ensures e.None? ==>
                Total(old(nodes), old(bytes), PropertiesCost(h, properties, MAX_DEPTH - depth, true)) == Some(Cost(nodes, bytes))
      ensures e.None? ==> ancestors == old(ancestors)
      decreases MAX_DEPTH + 1 - depth, 1
    {
      hide ItemCost, PropertiesCost, Above, StringBytes;
      var count := 0;
      ghost var levels := MAX_DEPTH - depth;
      ghost var total := Total(nodes, bytes, PropertiesCost(h, properties, levels, true));
      PartsEmpty(h, levels, true);
      PartsEmpty(h, levels, false);
      assert properties[0..] == properties;
      e := None;
      for i := 0 to |properties|
        invariant e.None? && ancestors == old(ancestors)
        invariant bytes <= maxBytes && nodes <= MAX_NODES
        invariant Total(nodes, bytes, PropertiesCost(h, properties[i..], levels, count == 0)) == total
      {
        NextProperty(h, properties[i..], levels, count == 0);
        assert properties[i..][1..] == properties[i + 1..];
        if properties[i].slot.Accessors? {
          return Some(AccessorData);
        }
        var item := properties[i].slot.item;
        if item.Undefined? { continue; }
        assert IsChild(h(id), item);
        nodes := nodes + 1;
        if nodes > MAX_NODES { return Some(Complexity); }
        if count != 0 {
          e := Add(1);
          if e.Some? { return; }
        }
        count := count + 1;
        e := AddString(properties[i].key);
        if e.Some? { return; }
        e := Add(1);
        if e.Some? { return; }
        e := Visit(item, depth + 1);
        if e.Some? { return; }
      }
    }
  }

  /** The item stands for the value, which nests no deeper and has no more nodes and bytes than is allowed. */
  ghost predicate Measures(h: Heap, item: Item, v: Value, maxBytes: int) {
    Means(h, item, v) && Levels(v) <= MAX_DEPTH + 1 && Nodes(v) <= MAX_NODES && Utf8Length(Print(v)) <= maxBytes
  }

  lemma MeasuresExact(h: Heap, item: Item, maxBytes: int)
    ensures var v := Unfold(h, item, MAX_DEPTH + 1);
            && ((exists v :: Measures(h, item, v, maxBytes)) <==>
                  v.Some? && Nodes(v.value) <= MAX_NODES && Utf8Length(Print(v.value)) <= maxBytes)
            && forall w :: Measures(h, item, w, maxBytes) ==> v == Some(w)
  {
    hide Unfold, Means, Levels, Nodes, Utf8Length, Print;
    var v := Unfold(h, item, MAX_DEPTH + 1);
    if v.Some? {
      UnfoldExact(h, item, MAX_DEPTH + 1, v.value);
      assert Measures(h, item, v.value, maxBytes) <==> Nodes(v.value) <= MAX_NODES && Utf8Length(Print(v.value)) <= maxBytes;
    }
    forall w | Measures(h, item, w, maxBytes) ensures v == Some(w) {
      UnfoldExact(h, item, MAX_DEPTH + 1, w);
    }
  }

  /**
   boundedJsonBytes: it succeeds exactly when the item denotes a JSON value of at most
   MAX_DEPTH + 1 levels and MAX_NODES nodes whose serialization fits, and it returns the length
   of that serialization.
   */
  method BoundedJsonBytes(h: Heap, item: Item, maxBytes: int) returns (r: Result<nat, Limit>)
    ensures var v := Unfold(h, item, MAX_DEPTH + 1);
            r.Ok? <==> v.Some? && Nodes(v.value) <= MAX_NODES && Utf8Length(Print(v.value)) <= maxBytes
    ensures r.Ok? ==> r.value == Utf8Length(Print(Unfold(h, item, MAX_DEPTH + 1).value))
    ensures r.Err? ==> Verdict(Some(r.error), ItemCost(h, item, MAX_DEPTH + 1), maxBytes)
    ensures r.Ok? <==> exists v :: Measures(h, item, v, maxBytes)
    ensures forall v :: Measures(h, item, v, maxBytes) ==> r == Ok(Utf8Length(Print(v)))
  {
    hide Unfold, Measures;
    MeasuresExact(h, item, maxBytes);
    var meter := new ByteMeter(h, maxBytes);
    var e := meter.Visit(item, 0);
    match e
    case None => r := Ok(meter.bytes);
    case Some(limit) => r := Err(limit);
  }

  // ---------------------------------------------------------------- the response meter

  /** One half of createA2AResponseMeter: a count of values and a sum of their sizes. */
  datatype Meter = Meter(count: nat, bytes: nat, maxCount: nat, maxEach: nat, maxTotal: nat)

  /** The meter after one value of the given size, None if it cannot be measured, and whether it was let through. */
  function Measured(m: Meter, size: Option<nat>): (Meter, bool) {
    var counted := m.(count := m.count + 1);
    if counted.count > m.maxCount || size.None? || size.value > m.maxEach then (counted, false)
    else
      var added := counted.(bytes := m.bytes + size.value);
      (added, added.bytes <= m.maxTotal)
  }

  function MeasuredAll(m: Meter, sizes: seq<Option<nat>>): Meter {
    if sizes == [] then m else Measured(MeasuredAll(m, sizes[..|sizes| - 1]), sizes[|sizes| - 1]).0
  }

  /** The sizes let through, in order. */
  function LetThrough(m: Meter, sizes: seq<Option<nat>>): seq<nat> {
    if sizes == [] then []
    else
      var n := |sizes| - 1;
      var before := LetThrough(m, sizes[..n]);
      if sizes[n].Some? && Measured(MeasuredAll(m, sizes[..n]), sizes[n]).1 then before + [sizes[n].value] else before
  }

  function Sum(sizes: seq<nat>): nat {
    if sizes == [] then 0 else Sum(sizes[..|sizes| - 1]) + sizes[|sizes| - 1]
  }

  /** Whatever arrives, what is let through stays within all three limits. */
  lemma {:induction false} MeterBounds(m: Meter, sizes: seq<Option<nat>>)
    requires m.count == 0 && m.bytes == 0
    ensures var through := LetThrough(m, sizes);
            |through| <= m.maxCount && Sum(through) <= m.maxTotal && forall i :: 0 <= i < |through| ==> through[i] <= m.maxEach
    ensures var end := MeasuredAll(m, sizes);
            |LetThrough(m, sizes)| <= end.count == |sizes| && Sum(LetThrough(m, sizes)) <= end.bytes
    ensures var end := MeasuredAll(m, sizes);
            end.maxCount == m.maxCount && end.maxEach == m.maxEach && end.maxTotal == m.maxTotal
  {
    if sizes != [] {
      var n := |sizes| - 1;
      MeterBounds(m, sizes[..n]);
      var before := LetThrough(m, sizes[..n]);
      if sizes[n].Some? {
        assert (before + [sizes[n].value])[..|before|] == before;
      }
    }
  }

  class ResponseMeter {
    const h: Heap
    var meter: Meter

    constructor (h: Heap, maxCount: nat, maxEach: nat, maxTotal: nat)
      ensures this.h == h && meter == Meter(0, 0, maxCount, maxEach, maxTotal)
    {
      this.h, meter := h, Meter(0, 0, maxCount, maxEach, maxTotal);
    }

    /** `event` and `artifact`, which differ in their limits and counters only. */
    method Measure(item: Item) returns (ok: bool)
      modifies this
      ensures var v := Unfold(h, item, MAX_DEPTH + 1);
              var size := if v.Some? && Nodes(v.value) <= MAX_NODES then Some(Utf8Length(Print(v.value))) else None;
              (meter, ok) == Measured(old(meter), size)
    {
      hide Unfold, Nodes, Print, Utf8Length;
      meter := meter.(count := meter.count + 1);
      if meter.count > meter.maxCount {
        return false;
      }
      var r := BoundedJsonBytes(h, item, meter.maxEach);
      if r.Err? {
        return false;
      }
      meter := meter.(bytes := meter.bytes + r.value);
      ok := meter.bytes <= meter.maxTotal;
    }
  }
}
