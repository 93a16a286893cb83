/**
 configuration/section_coercion.py: fits raw section data to the fields of a model before
 validation. Sections are untyped trees; models may refer to themselves, so every recursion is
 bounded by the size of the data, never by the schema.
 */
module SectionCoercion {
  import opened Wrappers
  import opened AsciiText
  import opened SectionData
  import opened InsertionOrder
  import StableSort

  // ---------------------------------------------------------------- schema

  datatype Annotation =
    | Model(id: string)
    | ListOf(args: seq<Annotation>)
    | DictOf(args: seq<Annotation>)
    | Annotated(inner: Annotation)
    | Union(args: seq<Annotation>)
    | NoneType
    | Plain(name: string)

  datatype Field = Field(name: string, annotation: Annotation)

  /** Model id to its fields in declaration order. */
  type Schema = map<string, seq<Field>>

  function Fields(schema: Schema, model: string): seq<Field> {
    if model in schema then schema[model] else []
  }

  /** pydantic keeps fields in a dict, so their names differ. */
  ghost predicate FieldNamesDiffer(fields: seq<Field>) {
    forall i, j | 0 <= i < j < |fields| :: fields[i].name != fields[j].name
  }

  // ---------------------------------------------------------------- size

  function Size(v: Value): nat {
    match v
    case Scalar(_) => 0
    case VList(items) => 1 + ItemsSize(items)
    case VDict(entries) => 1 + EntriesSize(entries)
  }

  function ItemsSize(items: seq<Value>): nat {
    if items == [] then 0 else ItemsSize(items[..|items| - 1]) + 1 + Size(items[|items| - 1])
  }

  function EntriesSize(es: Section): nat {
    if es == [] then 0 else EntriesSize(es[..|es| - 1]) + EntrySize(es[|es| - 1])
  }

  function EntrySize(e: Entry): nat {
    1 + Size(e.value)
  }

  // ---------------------------------------------------------------- annotations

  function NotNone(args: seq<Annotation>): (r: seq<Annotation>)
    ensures forall a | a in r :: a in args && a != NoneType
  {
    if args == [] then []
    else (if args[0] == NoneType then [] else [args[0]]) + NotNone(args[1..])
  }

  function UnwrapOptional(a: Annotation): (r: Annotation)
    ensures !r.Annotated?
    ensures r.Union? ==> |NotNone(r.args)| != 1
  {
    match a
    case Annotated(inner) => UnwrapOptional(inner)
    case Union(args) =>
      var present := NotNone(args);
      if |present| == 1 then
        assert present[0] in args;
        UnwrapOptional(present[0])
      else a
    case _ => a
  }

  function UnwrapModel(a: Annotation): Option<string> {
    match UnwrapOptional(a)
    case Model(id) => Some(id)
    case _ => None
  }

  function UnwrapListItem(a: Annotation): Option<string> {
    match UnwrapOptional(a)
    case ListOf(args) => if |args| == 1 then UnwrapModel(args[0]) else None
    case _ => None
  }

  function UnwrapDictValue(a: Annotation): Option<string> {
    match UnwrapOptional(a)
    case DictOf(args) => if |args| == 2 then UnwrapModel(args[1]) else None
    case _ => None
  }

  // ---------------------------------------------------------------- indexed dicts

  /** `isinstance(key, (str, int)) and str(key).isdigit()` */
  predicate IsIndexKey(key: Key) {
    match key
    case StrKey(text) => IsDigits(text)
    case IntKey(n) => IsDigits(ShowInt(n))
    case OtherKey(_) => false
  }

  /** `int(str(key))`; 0 for a key that is no index, which is never asked for. */
  function IndexOf(key: Key): nat {
    match key
    case StrKey(text) => if IsDigits(text) then ParseNat(text) else 0
    case IntKey(n) => if IsDigits(ShowInt(n)) then ParseNat(ShowInt(n)) else 0
    case OtherKey(_) => 0
  }

  function EntryIndex(): Entry -> int {
    (e: Entry) => IndexOf(e.key)
  }

  predicate IsIndexed(es: Section) {
    es != [] && forall i | 0 <= i < |es| :: IsIndexKey(es[i].key)
  }

  function Values(es: Section): (r: seq<Value>)
    ensures |r| == |es|
    ensures forall i | 0 <= i < |es| :: r[i] == es[i].value
  {
    seq(|es|, i requires 0 <= i < |es| => es[i].value)
  }

  /**
   An indexed dict becomes the values in the stable numeric order of its keys, anything else stays
   as it is; neither makes the data larger.
   */
  function IndexedDictToList(v: Value): (r: Value)
    ensures Size(r) == Size(v)
    ensures if v.VDict? && IsIndexed(v.entries)
      then exists sorted :: StableSort.IsStableSort(EntryIndex(), v.entries, sorted) && r == VList(Values(sorted))
      else r == v
  {
    if v.VDict? && IsIndexed(v.entries) then
      StableSort.SortIsStable(EntryIndex(), v.entries);
      SortKeepsSize(v.entries);
      ValuesSize(StableSort.Sort(EntryIndex(), v.entries));
      VList(Values(StableSort.Sort(EntryIndex(), v.entries)))
    else v
  }

  lemma {:induction false} ValuesSize(es: Section)
    ensures ItemsSize(Values(es)) == EntriesSize(es)
  {
    if es != [] {
      ValuesSize(es[..|es| - 1]);
      assert Values(es)[..|es| - 1] == Values(es[..|es| - 1]);
    }
  }

  lemma {:induction false} InsertKeepsSize(e: Entry, es: Section)
    ensures EntriesSize(StableSort.Insert(EntryIndex(), e, es)) == EntriesSize(es) + 1 + Size(e.value)
  {
    if es != [] {
      InsertKeepsSize(e, es[..|es| - 1]);
    }
  }

  lemma {:induction false} SortKeepsSize(es: Section)
    ensures EntriesSize(StableSort.Sort(EntryIndex(), es)) == EntriesSize(es)
  {
    if es != [] {
      SortKeepsSize(es[..|es| - 1]);
      InsertKeepsSize(es[|es| - 1], StableSort.Sort(EntryIndex(), es[..|es| - 1]));
    }
  }

  // ---------------------------------------------------------------- coercion

  /** `field_lookup.get(folded)`: when two names fold alike, the later one is in the dict. */
  function Lookup(fields: seq<Field>, folded: string): (r: Option<Field>)
    ensures r.Some? ==> r.value in fields && Fold(r.value.name) == folded
  {
    if fields == [] then None
    else
      var last := fields[|fields| - 1];
      if Fold(last.name) == folded then Some(last) else Lookup(fields[..|fields| - 1], folded)
  }

  /** The field a section key addresses, whatever its casing. */
  function TargetField(fields: seq<Field>, key: Key): Option<Field> {
    if key.StrKey? then Lookup(fields, Fold(key.text)) else None
  }

  /** One pass of the loop body: the assignment made for one section entry. */
  function CoerceEntry(schema: Schema, model: string, e: Entry): Entry
    decreases Size(e.value), 3
  {
    match TargetField(Fields(schema, model), e.key)
    case Some(field) => Entry(StrKey(field.name), CoerceFieldValue(schema, e.value, field.annotation))
    case None => e
  }

  function CoerceEntries(schema: Schema, model: string, es: Section): (r: Section)
    ensures |r| == |es|
    decreases EntriesSize(es), 0
  {
    if es == [] then []
    else
      assert EntriesSize(es) == EntriesSize(es[..|es| - 1]) + EntrySize(es[|es| - 1]);
      CoerceEntries(schema, model, es[..|es| - 1]) + [CoerceEntry(schema, model, es[|es| - 1])]
  }

  /** `coerce_section_data_for_model`; anything but a dict passes through. */
  function CoerceSection(schema: Schema, data: Value, model: string): Value
    decreases Size(data), 1
  {
    if data.VDict? then VDict(PutAll(CoerceEntries(schema, model, data.entries))) else data
  }

  function CoerceItems(schema: Schema, items: seq<Value>, model: string): (r: seq<Value>)
    ensures |r| == |items|
    decreases ItemsSize(items), 0
  {
    if items == [] then []
    else CoerceItems(schema, items[..|items| - 1], model) + [CoerceSection(schema, items[|items| - 1], model)]
  }

  function CoerceDictValues(schema: Schema, es: Section, model: string): (r: Section)
    ensures |r| == |es|
    ensures forall i | 0 <= i < |es| :: r[i].key == es[i].key
    decreases EntriesSize(es), 0
  {
    if es == [] then []
    else
      var last := es[|es| - 1];
      assert EntriesSize(es) == EntriesSize(es[..|es| - 1]) + EntrySize(last);
      CoerceDictValues(schema, es[..|es| - 1], model) + [Entry(last.key, CoerceSection(schema, last.value, model))]
  }

  /** `_coerce_field_value` */
  function CoerceFieldValue(schema: Schema, value: Value, annotation: Annotation): Value
    decreases Size(value), 2
  {
    var nested := UnwrapModel(annotation);
    if nested.Some? && value.VDict? then CoerceSection(schema, value, nested.value)
    else
      var itemModel := UnwrapListItem(annotation);
      var listValue := IndexedDictToList(value);
      if itemModel.Some? && listValue.VList? then VList(CoerceItems(schema, listValue.items, itemModel.value))
      else
        var valueModel := UnwrapDictValue(annotation);
        if valueModel.Some? && value.VDict? then VDict(CoerceDictValues(schema, value.entries, valueModel.value))
        else value
  }

  lemma {:induction false} CoerceEntriesAt(schema: Schema, model: string, es: Section, i: nat)
    requires i < |es|
    ensures CoerceEntries(schema, model, es)[i] == CoerceEntry(schema, model, es[i])
  {
    if i < |es| - 1 {
      CoerceEntriesAt(schema, model, es[..|es| - 1], i);
    }
  }

  /** The loop's step: one more section entry is one more assignment to the result. */
  lemma AssignOne(schema: Schema, model: string, es: Section, i: nat, coerced: Section)
    requires i < |es|
    requires coerced == PutAll(CoerceEntries(schema, model, es[..i]))
    ensures var e := CoerceEntry(schema, model, es[i]);
      Put(coerced, e.key, e.value) == PutAll(CoerceEntries(schema, model, es[..i + 1]))
  {
    var done, e := CoerceEntries(schema, model, es[..i]), CoerceEntry(schema, model, es[i]);
    assert es[..i + 1][..i] == es[..i];
    assert CoerceEntries(schema, model, es[..i + 1]) == done + [e];
    assert (done + [e])[..|done|] == done;
  }

  /**
   `coerce_section_data_for_model` as the loop it is: `coerced` is filled entry by entry. The
   result is a dict in which every field holds the coerced value of the last entry addressing it,
   at the position of the first, and every other entry is untouched.
   */
  method CoerceSectionDataForModel(schema: Schema, data: Value, model: string) returns (r: Value)
    ensures r == CoerceSection(schema, data, model)
    ensures !data.VDict? ==> r == data
    ensures data.VDict? ==> r.VDict? && Collapses(CoerceEntries(schema, model, data.entries), r.entries)
  {
    if !data.VDict? {
      return data;
    }
    var coerced: Section := [];
    var i := 0;
    while i < |data.entries|
      invariant 0 <= i <= |data.entries|
      invariant coerced == PutAll(CoerceEntries(schema, model, data.entries[..i]))
    {
      var Entry(key, value) := data.entries[i];
      ghost var before, e := coerced, CoerceEntry(schema, model, data.entries[i]);
      if !key.StrKey? {
        coerced := Put(coerced, key, value);
      } else {
        var field := Lookup(Fields(schema, model), Fold(key.text));
        if field.None? {
          coerced := Put(coerced, key, value);
        } else {
          coerced := Put(coerced, StrKey(field.value.name), CoerceFieldValue(schema, value, field.value.annotation));
        }
      }
      assert coerced == Put(before, e.key, e.value);
      AssignOne(schema, model, data.entries, i, before);
      i := i + 1;
    }
    assert data.entries[..i] == data.entries;
    PutAllCollapses(CoerceEntries(schema, model, data.entries));
    r := VDict(coerced);
  }
}
