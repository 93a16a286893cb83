/** What section coercion promises: blindness to casing, idempotence, and the index round trip. */
module CoercionProperties {
  import opened Wrappers
  import opened AsciiText
  import opened SectionData
  import opened InsertionOrder
  import opened SectionCoercion
  import StableSort

  // ---------------------------------------------------------------- what the fields hold

  /**
   The value a field ends up with is the coerced value of the last entry whose key folds to the
   field's name. Nothing is stored when no key does.
   */
  lemma FieldHoldsLastMatch(schema: Schema, model: string, es: Section, field: Field)
    requires Lookup(Fields(schema, model), Fold(field.name)) == Some(field)
    ensures Get(PutAll(CoerceEntries(schema, model, es)), StrKey(field.name))
         == var at := LastMatch(es, field.name);
            if at < 0 then None else Some(CoerceFieldValue(schema, es[at].value, field.annotation))
  {
    var rewritten := CoerceEntries(schema, model, es);
    GetAfterPutAll(rewritten, StrKey(field.name));
    LastMatchIsLastAt(schema, model, es, field);
    if LastMatch(es, field.name) >= 0 {
      CoerceEntriesAt(schema, model, es, LastMatch(es, field.name));
    }
  }

  predicate Matches(key: Key, name: string) {
    key.StrKey? && Fold(key.text) == Fold(name)
  }

  /** Position of the last entry whose key folds to `name`; -1 when there is none. */
  function LastMatch(es: Section, name: string): (r: int)
    ensures -1 <= r < |es|
    ensures r >= 0 ==> Matches(es[r].key, name)
    ensures forall i | r < i < |es| :: !Matches(es[i].key, name)
  {
    if es == [] then -1
    else if Matches(es[|es| - 1].key, name) then |es| - 1
    else LastMatch(es[..|es| - 1], name)
  }

  /** Position of the first entry whose key folds to `name`; the length when there is none. */
  function FirstMatch(es: Section, name: string): (r: nat)
    ensures r <= |es|
    ensures r < |es| ==> Matches(es[r].key, name)
    ensures forall i | 0 <= i < r :: !Matches(es[i].key, name)
  {
    if es == [] then 0
    else if Matches(es[0].key, name) then 0
    else 1 + FirstMatch(es[1..], name)
  }

  lemma {:induction false} LastMatchIsLastAt(schema: Schema, model: string, es: Section, field: Field)
    requires Lookup(Fields(schema, model), Fold(field.name)) == Some(field)
    ensures LastAt(CoerceEntries(schema, model, es), StrKey(field.name)) == LastMatch(es, field.name)
  {
    if es != [] {
      var front, last := es[..|es| - 1], es[|es| - 1];
      LastMatchIsLastAt(schema, model, front, field);
      LastAtAppend(CoerceEntries(schema, model, front), CoerceEntry(schema, model, last), StrKey(field.name));
      if !Matches(last.key, field.name) {
        StrangerIsNoField(schema, model, last.key, field);
      }
    }
  }

  /** A key that does not fold to a field's name is never renamed to it. */
  lemma StrangerIsNoField(schema: Schema, model: string, key: Key, field: Field)
    requires Lookup(Fields(schema, model), Fold(field.name)) == Some(field)
    requires !Matches(key, field.name)
    ensures key != StrKey(field.name)
    ensures var target := TargetField(Fields(schema, model), key);
      target.Some? ==> target.value.name != field.name
  {
  }

  /** `field_lookup`: of the fields whose names fold alike the last one is found, and one is found if there is any. */
  lemma {:induction false} LookupFindsLast(fields: seq<Field>, i: nat, folded: string)
    requires i < |fields| && Fold(fields[i].name) == folded
    requires forall j | i < j < |fields| :: Fold(fields[j].name) != folded
    ensures Lookup(fields, folded) == Some(fields[i])
  {
    if i < |fields| - 1 {
      LookupFindsLast(fields[..|fields| - 1], i, folded);
    }
  }

  /** An entry that addresses no field keeps its key and its whole subtree. */
  lemma UnmatchedEntryUntouched(schema: Schema, model: string, es: Section, i: nat)
    requires i < |es| && UniqueKeys(es)
    requires TargetField(Fields(schema, model), es[i].key) == None
    ensures Get(PutAll(CoerceEntries(schema, model, es)), es[i].key) == Some(es[i].value)
  {
    var rewritten := CoerceEntries(schema, model, es);
    CoerceEntriesAt(schema, model, es, i);
    GetAfterPutAll(rewritten, es[i].key);
    LastAtIsLast(rewritten, es[i].key, i);
    var at := LastAt(rewritten, es[i].key);
    CoerceEntriesAt(schema, model, es, at);
  }

  /** A field found under a folded key is found again under its own name. */
  lemma FieldsFoundAgain(fields: seq<Field>, field: Field, folded: string)
    requires Lookup(fields, folded) == Some(field)
    ensures Lookup(fields, Fold(field.name)) == Some(field)
  {
  }

  /** Where the result's key `key` comes from: the first entry addressing its field, or the entry itself. */
  function Origin(fields: seq<Field>, es: Section, key: Key): (r: nat)
    ensures r <= |es|
  {
    match TargetField(fields, key)
    case Some(field) => FirstMatch(es, field.name)
    case None => FirstAt(es, key)
  }

  /** A rewritten key is the field's own name, or the key of the entry when there is no field. */
  lemma RewrittenKey(schema: Schema, model: string, e: Entry, key: Key)
    requires var target := TargetField(Fields(schema, model), key);
      target.Some? ==> key == StrKey(target.value.name)
    ensures CoerceEntry(schema, model, e).key == key <==>
      match TargetField(Fields(schema, model), key)
      case Some(field) => Matches(e.key, field.name)
      case None => e.key == key
  {
    var fields := Fields(schema, model);
    var target := TargetField(fields, e.key);
    if target.Some? {
      FieldsFoundAgain(fields, target.value, Fold(e.key.text));
    }
  }

  /** The first rewritten entry with a key stands where the key comes from. */
  lemma FirstRewritten(schema: Schema, model: string, es: Section, key: Key)
    requires var target := TargetField(Fields(schema, model), key);
      target.Some? ==> key == StrKey(target.value.name)
    ensures FirstAt(CoerceEntries(schema, model, es), key) == Origin(Fields(schema, model), es, key)
  {
    var rewritten := CoerceEntries(schema, model, es);
    var first, origin := FirstAt(rewritten, key), Origin(Fields(schema, model), es, key);
    if first < |es| {
      CoerceEntriesAt(schema, model, es, first);
      RewrittenKey(schema, model, es[first], key);
    }
    if origin < |es| {
      CoerceEntriesAt(schema, model, es, origin);
      RewrittenKey(schema, model, es[origin], key);
      FirstAtIsFirst(rewritten, key, origin);
    }
    if first < origin && TargetField(Fields(schema, model), key).None? {
      BeforeFirstAt(es, key, first);
    }
  }

  /**
   The keys of the result stand in the order of the entries they come from: a field at the place
   of the first key that folds to it, an entry that addresses no field at its own place.
   */
  lemma KeysInOrderOfOrigin(schema: Schema, model: string, es: Section, i: nat, j: nat)
    requires i < j < |PutAll(CoerceEntries(schema, model, es))|
    ensures var result := PutAll(CoerceEntries(schema, model, es));
      var fields := Fields(schema, model);
      Origin(fields, es, result[i].key) < Origin(fields, es, result[j].key) < |es|
  {
    var rewritten := CoerceEntries(schema, model, es);
    var result := PutAll(rewritten);
    PutAllCollapses(rewritten);
    ResultKey(schema, model, es, i);
    ResultKey(schema, model, es, j);
    KnownKey(rewritten, result, j);
    FirstRewritten(schema, model, es, result[i].key);
    FirstRewritten(schema, model, es, result[j].key);
  }

  /** A key of the result that addresses a field is the field's own name. */
  lemma ResultKey(schema: Schema, model: string, es: Section, i: nat)
    requires i < |PutAll(CoerceEntries(schema, model, es))|
    ensures var key := PutAll(CoerceEntries(schema, model, es))[i].key;
      var target := TargetField(Fields(schema, model), key);
      target.Some? ==> key == StrKey(target.value.name)
  {
    var rewritten := CoerceEntries(schema, model, es);
    var key := PutAll(rewritten)[i].key;
    PutAllCollapses(rewritten);
    var at := LastAt(rewritten, key);
    CoerceEntriesAt(schema, model, es, at);
    var target := TargetField(Fields(schema, model), es[at].key);
    if target.Some? {
      FieldsFoundAgain(Fields(schema, model), target.value, Fold(es[at].key.text));
    }
  }

  // ---------------------------------------------------------------- blind to casing

  /** Two sections that differ only in the casing of keys addressing fields, at any depth. */
  ghost predicate SameSection(schema: Schema, a: Value, b: Value, model: string)
    decreases Size(a), 1
  {
    if a.VDict? && b.VDict? then SameEntries(schema, a.entries, b.entries, model) else a == b
  }

  ghost predicate SameEntries(schema: Schema, a: Section, b: Section, model: string)
    decreases EntriesSize(a), 0
  {
    && |a| == |b|
    && (a != [] ==>
          assert EntriesSize(a) == EntriesSize(a[..|a| - 1]) + EntrySize(a[|a| - 1]);
          && SameEntries(schema, a[..|a| - 1], b[..|b| - 1], model)
          && SameEntry(schema, a[|a| - 1], b[|b| - 1], model))
  }

  ghost predicate SameEntry(schema: Schema, a: Entry, b: Entry, model: string)
    decreases Size(a.value), 3
  {
    match TargetField(Fields(schema, model), a.key)
    case Some(field) =>
      && b.key.StrKey? && Fold(b.key.text) == Fold(a.key.text)
      && SameFieldValue(schema, a.value, b.value, field.annotation)
    case None => a == b
  }

  ghost predicate SameItems(schema: Schema, a: seq<Value>, b: seq<Value>, model: string)
    decreases ItemsSize(a), 0
  {
    && |a| == |b|
    && (a != [] ==>
          && SameItems(schema, a[..|a| - 1], b[..|b| - 1], model)
          && SameSection(schema, a[|a| - 1], b[|b| - 1], model))
  }

  /** Keys of a dict-valued field are data: they must agree exactly. */
  ghost predicate SameDictValues(schema: Schema, a: Section, b: Section, model: string)
    decreases EntriesSize(a), 0
  {
    && |a| == |b|
    && (a != [] ==>
          assert EntriesSize(a) == EntriesSize(a[..|a| - 1]) + EntrySize(a[|a| - 1]);
          && SameDictValues(schema, a[..|a| - 1], b[..|b| - 1], model)
          && a[|a| - 1].key == b[|b| - 1].key
          && SameSection(schema, a[|a| - 1].value, b[|b| - 1].value, model))
  }

  ghost predicate SameFieldValue(schema: Schema, a: Value, b: Value, annotation: Annotation)
    decreases Size(a), 2
  {
    if UnwrapModel(annotation).Some? then
      SameSection(schema, a, b, UnwrapModel(annotation).value)
    else if UnwrapListItem(annotation).Some? then
      if a.VList? && b.VList? then SameItems(schema, a.items, b.items, UnwrapListItem(annotation).value)
      else if a.VDict? && b.VDict? && IsIndexed(a.entries) then
        SameDictValues(schema, a.entries, b.entries, UnwrapListItem(annotation).value)
      else a == b
    else if UnwrapDictValue(annotation).Some? && a.VDict? && b.VDict? then
      SameDictValues(schema, a.entries, b.entries, UnwrapDictValue(annotation).value)
    else a == b
  }

  /**
   Coercion is blind to the casing of structural keys: sections that differ only there coerce to
   the same value, entry order included, for every schema, self-referential ones too.
   */
  lemma {:induction false} CasingDoesNotMatter(schema: Schema, a: Value, b: Value, model: string)
    requires SameSection(schema, a, b, model)
    ensures CoerceSection(schema, a, model) == CoerceSection(schema, b, model)
    decreases Size(a), 1
  {
    if a.VDict? && b.VDict? {
      CasingInEntries(schema, a.entries, b.entries, model);
    }
  }

  lemma {:induction false} CasingInEntries(schema: Schema, a: Section, b: Section, model: string)
    requires SameEntries(schema, a, b, model)
    ensures CoerceEntries(schema, model, a) == CoerceEntries(schema, model, b)
    decreases EntriesSize(a), 0
  {
    if a != [] {
      assert EntriesSize(a) == EntriesSize(a[..|a| - 1]) + EntrySize(a[|a| - 1]);
      CasingInEntries(schema, a[..|a| - 1], b[..|b| - 1], model);
      CasingInEntry(schema, a[|a| - 1], b[|b| - 1], model);
    }
  }

  lemma {:induction false} CasingInEntry(schema: Schema, a: Entry, b: Entry, model: string)
    requires SameEntry(schema, a, b, model)
    ensures CoerceEntry(schema, model, a) == CoerceEntry(schema, model, b)
    decreases Size(a.value), 3
  {
    var target := TargetField(Fields(schema, model), a.key);
    if target.Some? {
      CasingInFieldValue(schema, a.value, b.value, target.value.annotation);
    }
  }

  lemma {:induction false} CasingInItems(schema: Schema, a: seq<Value>, b: seq<Value>, model: string)
    requires SameItems(schema, a, b, model)
    ensures CoerceItems(schema, a, model) == CoerceItems(schema, b, model)
    decreases ItemsSize(a), 0
  {
    if a != [] {
      CasingInItems(schema, a[..|a| - 1], b[..|b| - 1], model);
      CasingDoesNotMatter(schema, a[|a| - 1], b[|b| - 1], model);
    }
  }

  lemma {:induction false} CasingInDictValues(schema: Schema, a: Section, b: Section, model: string)
    requires SameDictValues(schema, a, b, model)
    ensures CoerceDictValues(schema, a, model) == CoerceDictValues(schema, b, model)
    ensures |a| == |b| && forall i | 0 <= i < |a| :: a[i].key == b[i].key
    ensures IsIndexed(a) == IsIndexed(b)
    decreases EntriesSize(a), 0
  {
    if a != [] {
      assert EntriesSize(a) == EntriesSize(a[..|a| - 1]) + EntrySize(a[|a| - 1]);
      CasingInDictValues(schema, a[..|a| - 1], b[..|b| - 1], model);
      CasingDoesNotMatter(schema, a[|a| - 1].value, b[|b| - 1].value, model);
    }
  }

  lemma {:induction false} CasingInListField(schema: Schema, a: Value, b: Value, annotation: Annotation)
    requires UnwrapModel(annotation).None? && UnwrapListItem(annotation).Some?
    requires SameFieldValue(schema, a, b, annotation)
    ensures CoerceFieldValue(schema, a, annotation) == CoerceFieldValue(schema, b, annotation)
    decreases Size(a), 2, 0
  {
    var item := UnwrapListItem(annotation).value;
    if a.VList? && b.VList? {
      CasingInItems(schema, a.items, b.items, item);
    } else if a.VDict? && b.VDict? && IsIndexed(a.entries) {
      CasingInDictValues(schema, a.entries, b.entries, item);
      ItemsOfIndexed(schema, a.entries, item);
      ItemsOfIndexed(schema, b.entries, item);
      IndexedField(schema, a.entries, annotation);
      IndexedField(schema, b.entries, annotation);
    }
  }

  lemma IndexedField(schema: Schema, es: Section, annotation: Annotation)
    requires UnwrapModel(annotation).None? && UnwrapListItem(annotation).Some? && IsIndexed(es)
    ensures CoerceFieldValue(schema, VDict(es), annotation)
         == VList(CoerceItems(schema, Values(StableSort.Sort(EntryIndex(), es)), UnwrapListItem(annotation).value))
  {
  }

  lemma {:induction false} CasingInFieldValue(schema: Schema, a: Value, b: Value, annotation: Annotation)
    requires SameFieldValue(schema, a, b, annotation)
    ensures CoerceFieldValue(schema, a, annotation) == CoerceFieldValue(schema, b, annotation)
    decreases Size(a), 2, 1
  {
    if UnwrapModel(annotation).Some? {
      CasingDoesNotMatter(schema, a, b, UnwrapModel(annotation).value);
    } else if UnwrapListItem(annotation).Some? {
      CasingInListField(schema, a, b, annotation);
    } else if UnwrapDictValue(annotation).Some? && a.VDict? && b.VDict? {
      CasingInDictValues(schema, a.entries, b.entries, UnwrapDictValue(annotation).value);
    }
  }

  lemma {:induction false} SameAsItself(schema: Schema, v: Value, model: string)
    ensures SameSection(schema, v, v, model)
    decreases Size(v), 1
  {
    if v.VDict? {
      SameEntriesAsThemselves(schema, v.entries, model);
    }
  }

  lemma {:induction false} SameEntriesAsThemselves(schema: Schema, es: Section, model: string)
    ensures SameEntries(schema, es, es, model)
    decreases EntriesSize(es), 0
  {
    if es != [] {
      assert EntriesSize(es) == EntriesSize(es[..|es| - 1]) + EntrySize(es[|es| - 1]);
      SameEntriesAsThemselves(schema, es[..|es| - 1], model);
      var target := TargetField(Fields(schema, model), es[|es| - 1].key);
      if target.Some? {
        SameFieldAsItself(schema, es[|es| - 1].value, target.value.annotation);
      }
    }
  }

  lemma {:induction false} SameItemsAsThemselves(schema: Schema, items: seq<Value>, model: string)
    ensures SameItems(schema, items, items, model)
    decreases ItemsSize(items), 0
  {
    if items != [] {
      SameItemsAsThemselves(schema, items[..|items| - 1], model);
      SameAsItself(schema, items[|items| - 1], model);
    }
  }

  lemma {:induction false} SameDictAsItself(schema: Schema, es: Section, model: string)
    ensures SameDictValues(schema, es, es, model)
    decreases EntriesSize(es), 0
  {
    if es != [] {
      assert EntriesSize(es) == EntriesSize(es[..|es| - 1]) + EntrySize(es[|es| - 1]);
      SameDictAsItself(schema, es[..|es| - 1], model);
      SameAsItself(schema, es[|es| - 1].value, model);
    }
  }

  lemma {:induction false} SameFieldAsItself(schema: Schema, v: Value, annotation: Annotation)
    ensures SameFieldValue(schema, v, v, annotation)
    decreases Size(v), 2
  {
    if UnwrapModel(annotation).Some? {
      SameAsItself(schema, v, UnwrapModel(annotation).value);
    } else if UnwrapListItem(annotation).Some? {
      if v.VList? {
        SameItemsAsThemselves(schema, v.items, UnwrapListItem(annotation).value);
      } else if v.VDict? {
        SameDictAsItself(schema, v.entries, UnwrapListItem(annotation).value);
      }
    } else if UnwrapDictValue(annotation).Some? && v.VDict? {
      SameDictAsItself(schema, v.entries, UnwrapDictValue(annotation).value);
    }
  }

  /** In particular, any key that addresses a field may be respelt in any casing. */
  lemma {:induction false} RespeltKeyIsSame(schema: Schema, es: Section, model: string, i: nat, text: string)
    requires i < |es| && es[i].key.StrKey? && Fold(text) == Fold(es[i].key.text)
    requires TargetField(Fields(schema, model), es[i].key).Some?
    ensures SameEntries(schema, es, es[i := Entry(StrKey(text), es[i].value)], model)
  {
    var front, last := es[..|es| - 1], es[|es| - 1];
    if i < |es| - 1 {
      RespeltKeyIsSame(schema, front, model, i, text);
      assert es[i := Entry(StrKey(text), es[i].value)][..|es| - 1] == front[i := Entry(StrKey(text), es[i].value)];
      var target := TargetField(Fields(schema, model), last.key);
      if target.Some? {
        SameFieldAsItself(schema, last.value, target.value.annotation);
      }
    } else {
      assert es[i := Entry(StrKey(text), es[i].value)][..|es| - 1] == front;
      SameEntriesAsThemselves(schema, front, model);
      SameFieldAsItself(schema, last.value, TargetField(Fields(schema, model), last.key).value.annotation);
    }
  }

  // ---------------------------------------------------------------- items of an indexed dict

  lemma {:induction false} CoerceItemsAt(schema: Schema, items: seq<Value>, model: string, i: nat)
    requires i < |items|
    ensures CoerceItems(schema, items, model)[i] == CoerceSection(schema, items[i], model)
  {
    if i < |items| - 1 {
      CoerceItemsAt(schema, items[..|items| - 1], model, i);
    }
  }

  lemma {:induction false} CoerceDictValuesAt(schema: Schema, es: Section, model: string, i: nat)
    requires i < |es|
    ensures CoerceDictValues(schema, es, model)[i].value == CoerceSection(schema, es[i].value, model)
  {
    if i < |es| - 1 {
      CoerceDictValuesAt(schema, es[..|es| - 1], model, i);
    }
  }

  /** Sorting by index and coercing the values can be done in either order. */
  lemma ItemsOfIndexed(schema: Schema, es: Section, model: string)
    ensures CoerceItems(schema, Values(StableSort.Sort(EntryIndex(), es)), model)
         == Values(StableSort.Sort(EntryIndex(), CoerceDictValues(schema, es, model)))
  {
    var coerced := CoerceDictValues(schema, es, model);
    var f := (e: Entry) => Entry(e.key, CoerceSection(schema, e.value, model));
    forall i | 0 <= i < |es| ensures coerced[i] == f(es[i]) {
      CoerceDictValuesAt(schema, es, model, i);
    }
    StableSort.SortMaps(EntryIndex(), EntryIndex(), es, coerced, f);
    var sorted := StableSort.Sort(EntryIndex(), es);
    forall i | 0 <= i < |es|
      ensures CoerceItems(schema, Values(sorted), model)[i] == Values(StableSort.Sort(EntryIndex(), coerced))[i]
    {
      CoerceItemsAt(schema, Values(sorted), model, i);
    }
  }

  // ---------------------------------------------------------------- canonical sections

  /**
   A section already in the shape its model asks for: unique keys, every key that addresses a
   field spelt as the field's name, no indexed dict where a list is declared, at every depth.
   */
  ghost predicate CanonicalSection(schema: Schema, v: Value, model: string)
    decreases Size(v), 1
  {
    v.VDict? ==> UniqueKeys(v.entries) && CanonicalEntries(schema, v.entries, model)
  }

  ghost predicate CanonicalEntries(schema: Schema, es: Section, model: string)
    decreases EntriesSize(es), 0
  {
    es != [] ==>
      assert EntriesSize(es) == EntriesSize(es[..|es| - 1]) + EntrySize(es[|es| - 1]);
      && CanonicalEntries(schema, es[..|es| - 1], model)
      && CanonicalEntry(schema, es[|es| - 1], model)
  }

  ghost predicate CanonicalEntry(schema: Schema, e: Entry, model: string)
    decreases Size(e.value), 3
  {
    match TargetField(Fields(schema, model), e.key)
    case Some(field) => e.key == StrKey(field.name) && CanonicalFieldValue(schema, e.value, field.annotation)
    case None => true
  }

  ghost predicate CanonicalItems(schema: Schema, items: seq<Value>, model: string)
    decreases ItemsSize(items), 0
  {
    items != [] ==>
      && CanonicalItems(schema, items[..|items| - 1], model)
      && CanonicalSection(schema, items[|items| - 1], model)
  }

  ghost predicate CanonicalDictValues(schema: Schema, es: Section, model: string)
    decreases EntriesSize(es), 0
  {
    es != [] ==>
      assert EntriesSize(es) == EntriesSize(es[..|es| - 1]) + EntrySize(es[|es| - 1]);
      && CanonicalDictValues(schema, es[..|es| - 1], model)
      && CanonicalSection(schema, es[|es| - 1].value, model)
  }

  ghost predicate CanonicalFieldValue(schema: Schema, v: Value, annotation: Annotation)
    decreases Size(v), 2
  {
    if UnwrapModel(annotation).Some? then CanonicalSection(schema, v, UnwrapModel(annotation).value)
    else if UnwrapListItem(annotation).Some? then
      && (v.VDict? ==> !IsIndexed(v.entries))
      && (v.VList? ==> CanonicalItems(schema, v.items, UnwrapListItem(annotation).value))
    else if UnwrapDictValue(annotation).Some? && v.VDict? then
      CanonicalDictValues(schema, v.entries, UnwrapDictValue(annotation).value)
    else true
  }

  /** Whatever goes in, what comes out is canonical. */
  lemma {:induction false} CoercedIsCanonical(schema: Schema, data: Value, model: string)
    ensures CanonicalSection(schema, CoerceSection(schema, data, model), model)
    decreases Size(data), 1
  {
    if data.VDict? {
      var es := data.entries;
      var rewritten := CoerceEntries(schema, model, es);
      var out := PutAll(rewritten);
      PutAllCollapses(rewritten);
      CollapsesUniqueKeys(rewritten, out);
      forall j | 0 <= j < |out| ensures CanonicalEntry(schema, out[j], model) {
        var i := LastAt(rewritten, out[j].key);
        CoerceEntriesAt(schema, model, es, i);
        EntrySmaller(es, i);
        CoercedEntryIsCanonical(schema, model, es[i]);
      }
      AllEntriesCanonical(schema, out, model);
    }
  }

  lemma {:induction false} AllEntriesCanonical(schema: Schema, es: Section, model: string)
    requires forall i | 0 <= i < |es| :: CanonicalEntry(schema, es[i], model)
    ensures CanonicalEntries(schema, es, model)
  {
    if es != [] {
      AllEntriesCanonical(schema, es[..|es| - 1], model);
    }
  }

  lemma {:induction false} EntrySmaller(es: Section, i: nat)
    requires i < |es|
    ensures Size(es[i].value) < EntriesSize(es)
  {
    assert EntriesSize(es) == EntriesSize(es[..|es| - 1]) + EntrySize(es[|es| - 1]);
    if i < |es| - 1 {
      EntrySmaller(es[..|es| - 1], i);
    }
  }

  lemma {:induction false} CoercedEntryIsCanonical(schema: Schema, model: string, e: Entry)
    ensures CanonicalEntry(schema, CoerceEntry(schema, model, e), model)
    decreases Size(e.value), 3
  {
    var target := TargetField(Fields(schema, model), e.key);
    if target.Some? {
      FieldsFoundAgain(Fields(schema, model), target.value, Fold(e.key.text));
      CoercedFieldIsCanonical(schema, e.value, target.value.annotation);
    }
  }

  lemma {:induction false} CoercedItemsAreCanonical(schema: Schema, items: seq<Value>, model: string)
    ensures CanonicalItems(schema, CoerceItems(schema, items, model), model)
    decreases ItemsSize(items), 0
  {
    if items != [] {
      CoercedItemsAreCanonical(schema, items[..|items| - 1], model);
      CoercedIsCanonical(schema, items[|items| - 1], model);
    }
  }

  lemma {:induction false} CoercedDictValuesAreCanonical(schema: Schema, es: Section, model: string)
    ensures CanonicalDictValues(schema, CoerceDictValues(schema, es, model), model)
    decreases EntriesSize(es), 0
  {
    if es != [] {
      assert EntriesSize(es) == EntriesSize(es[..|es| - 1]) + EntrySize(es[|es| - 1]);
      CoercedDictValuesAreCanonical(schema, es[..|es| - 1], model);
      CoercedIsCanonical(schema, es[|es| - 1].value, model);
    }
  }

  lemma {:induction false} CoercedFieldIsCanonical(schema: Schema, value: Value, annotation: Annotation)
    ensures CanonicalFieldValue(schema, CoerceFieldValue(schema, value, annotation), annotation)
    decreases Size(value), 2
  {
    if UnwrapModel(annotation).Some? {
      CoercedIsCanonical(schema, value, UnwrapModel(annotation).value);
    } else if UnwrapListItem(annotation).Some? {
      var list := IndexedDictToList(value);
      if list.VList? {
        CoercedItemsAreCanonical(schema, list.items, UnwrapListItem(annotation).value);
      }
    } else if UnwrapDictValue(annotation).Some? && value.VDict? {
      CoercedDictValuesAreCanonical(schema, value.entries, UnwrapDictValue(annotation).value);
    }
  }

  /** A canonical section is left as it is, entry order included. */
  lemma {:induction false} CanonicalIsFixed(schema: Schema, v: Value, model: string)
    requires CanonicalSection(schema, v, model)
    ensures CoerceSection(schema, v, model) == v
    decreases Size(v), 1
  {
    if v.VDict? {
      CanonicalEntriesFixed(schema, v.entries, model);
      PutAllOfDict(v.entries);
    }
  }

  lemma {:induction false} CanonicalEntriesFixed(schema: Schema, es: Section, model: string)
    requires CanonicalEntries(schema, es, model)
    ensures CoerceEntries(schema, model, es) == es
    decreases EntriesSize(es), 0
  {
    if es != [] {
      var last := es[|es| - 1];
      assert EntriesSize(es) == EntriesSize(es[..|es| - 1]) + EntrySize(last);
      CanonicalEntriesFixed(schema, es[..|es| - 1], model);
      var target := TargetField(Fields(schema, model), last.key);
      if target.Some? {
        CanonicalFieldFixed(schema, last.value, target.value.annotation);
      }
    }
  }

  lemma {:induction false} CanonicalItemsFixed(schema: Schema, items: seq<Value>, model: string)
    requires CanonicalItems(schema, items, model)
    ensures CoerceItems(schema, items, model) == items
    decreases ItemsSize(items), 0
  {
    if items != [] {
      CanonicalItemsFixed(schema, items[..|items| - 1], model);
      CanonicalIsFixed(schema, items[|items| - 1], model);
    }
  }

  lemma {:induction false} CanonicalDictValuesFixed(schema: Schema, es: Section, model: string)
    requires CanonicalDictValues(schema, es, model)
    ensures CoerceDictValues(schema, es, model) == es
    decreases EntriesSize(es), 0
  {
    if es != [] {
      assert EntriesSize(es) == EntriesSize(es[..|es| - 1]) + EntrySize(es[|es| - 1]);
      CanonicalDictValuesFixed(schema, es[..|es| - 1], model);
      CanonicalIsFixed(schema, es[|es| - 1].value, model);
    }
  }

  lemma {:induction false} CanonicalFieldFixed(schema: Schema, value: Value, annotation: Annotation)
    requires CanonicalFieldValue(schema, value, annotation)
    ensures CoerceFieldValue(schema, value, annotation) == value
    decreases Size(value), 2
  {
    if UnwrapModel(annotation).Some? {
      CanonicalIsFixed(schema, value, UnwrapModel(annotation).value);
    } else if UnwrapListItem(annotation).Some? {
      if value.VList? {
        CanonicalItemsFixed(schema, value.items, UnwrapListItem(annotation).value);
      }
    } else if UnwrapDictValue(annotation).Some? && value.VDict? {
      CanonicalDictValuesFixed(schema, value.entries, UnwrapDictValue(annotation).value);
    }
  }

  /** The canonical sections are exactly those coercion leaves alone. */
  lemma UnchangedExactlyWhenCanonical(schema: Schema, v: Value, model: string)
    ensures CoerceSection(schema, v, model) == v <==> CanonicalSection(schema, v, model)
  {
    CoercedIsCanonical(schema, v, model);
    if CanonicalSection(schema, v, model) {
      CanonicalIsFixed(schema, v, model);
    }
  }

  /** Coercing twice is coercing once. */
  lemma CoercionIsIdempotent(schema: Schema, data: Value, model: string)
    ensures CoerceSection(schema, CoerceSection(schema, data, model), model) == CoerceSection(schema, data, model)
  {
    CoercedIsCanonical(schema, data, model);
    CanonicalIsFixed(schema, CoerceSection(schema, data, model), model);
  }

  /**
   Keys of a dict-valued field are data: a field declared neither as a model nor as a list of
   models keeps every key of its dict, in place; one without any model in it keeps everything.
   */
  lemma DataKeysPreserved(schema: Schema, es: Section, annotation: Annotation)
    requires UnwrapModel(annotation).None? && UnwrapListItem(annotation).None?
    ensures var r := CoerceFieldValue(schema, VDict(es), annotation);
      && r.VDict? && |r.entries| == |es|
      && (forall i | 0 <= i < |es| :: r.entries[i].key == es[i].key)
      && (UnwrapDictValue(annotation).None? ==> r == VDict(es))
  {
  }

  // ---------------------------------------------------------------- index round trip

  /** The list of an indexed dict is its values in the one stable numeric order of the keys. */
  lemma IndexedDictIsStableSort(es: Section, sorted: Section)
    requires IsIndexed(es) && StableSort.IsStableSort(EntryIndex(), es, sorted)
    ensures IndexedDictToList(VDict(es)) == VList(Values(sorted))
    ensures multiset(sorted) == multiset(es)
  {
    StableSort.StableSortIsUnique(EntryIndex(), es, sorted);
    StableSort.SortPermutes(EntryIndex(), es);
  }

  /** `es` is the list `xs` written with decimal index keys, in any order and spelling. */
  ghost predicate WritesList(xs: seq<Value>, es: Section) {
    && |es| == |xs|
    && (forall i | 0 <= i < |es| :: IsIndexKey(es[i].key) && IndexOf(es[i].key) < |xs| && es[i].value == xs[IndexOf(es[i].key)])
    && (forall i, j | 0 <= i < j < |es| :: IndexOf(es[i].key) != IndexOf(es[j].key))
  }

  /** Both spellings a loader produces, `str(n)` and `n` itself, index exactly the natural numbers. */
  lemma IndexSpellings(n: int)
    ensures IsIndexKey(IntKey(n)) <==> n >= 0
    ensures IsIndexKey(StrKey(ShowInt(n))) <==> n >= 0
    ensures n >= 0 ==> IndexOf(IntKey(n)) == n && IndexOf(StrKey(ShowInt(n))) == n
    ensures forall id :: !IsIndexKey(OtherKey(id))
  {
    ShownDigits(n);
    if n >= 0 {
      ShownNatParses(n);
    }
  }

  lemma SortedEntryIsWritten(xs: seq<Value>, es: Section, i: nat)
    requires WritesList(xs, es) && i < |es|
    ensures var e := StableSort.Sort(EntryIndex(), es)[i];
      EntryIndex()(e) < |xs| && e.value == xs[EntryIndex()(e)]
  {
    var sorted := StableSort.Sort(EntryIndex(), es);
    StableSort.SortPermutes(EntryIndex(), es);
    assert sorted[i] in multiset(sorted);
    assert sorted[i] in es;
  }

  lemma IndexRoundTrip(xs: seq<Value>, es: Section)
    requires xs != [] && WritesList(xs, es)
    ensures IndexedDictToList(VDict(es)) == VList(xs)
  {
    var key := EntryIndex();
    var sorted := StableSort.Sort(key, es);
    StableSort.SortIsStable(key, es);
    assert forall i, j | 0 <= i < j < |es| :: key(es[i]) != key(es[j]);
    StableSort.DistinctStaysDistinct(key, es, sorted);
    forall i | 0 <= i < |sorted| ensures 0 <= key(sorted[i]) < |sorted| {
      SortedEntryIsWritten(xs, es, i);
    }
    forall i | 0 <= i < |sorted| ensures Values(sorted)[i] == xs[i] {
      SortedEntryIsWritten(xs, es, i);
      StableSort.DenseIndexIsPosition(key, sorted, i);
    }
  }

  /** A list field is bound the same whether it is written as a list or as an indexed dict. */
  lemma IndexedListBindsAlike(schema: Schema, xs: seq<Value>, es: Section, annotation: Annotation)
    requires xs != [] && WritesList(xs, es) && UnwrapListItem(annotation).Some?
    ensures CoerceFieldValue(schema, VDict(es), annotation) == CoerceFieldValue(schema, VList(xs), annotation)
  {
    IndexRoundTrip(xs, es);
  }
}
