/**
 What coercion does to a field, read off the annotation one layer at a time. The laws say it in
 terms of whole-section coercion alone, and together they leave no annotation out.
 */
module AnnotationLaws {
  import opened Wrappers
  import opened AsciiText
  import opened SectionData
  import opened InsertionOrder
  import opened SectionCoercion
  import opened CoercionProperties
  import StableSort

  // ---------------------------------------------------------------- transparent layers

  /** `a` is the one member of the union besides `None`, which may stand in any place. */
  ghost predicate OnlyMember(args: seq<Annotation>, a: Annotation) {
    exists i | 0 <= i < |args| :: args[i] == a && a != NoneType && forall j | 0 <= j < |args| && j != i :: args[j] == NoneType
  }

  lemma {:induction false} NotNoneMembers(args: seq<Annotation>)
    ensures forall a :: a in NotNone(args) <==> a in args && a != NoneType
    ensures NotNone(args) == [] <==> forall a | a in args :: a == NoneType
  {
    if args != [] {
      NotNoneMembers(args[1..]);
      assert args == [args[0]] + args[1..];
    }
    if NotNone(args) != [] {
      assert NotNone(args)[0] in NotNone(args);
    }
  }

  lemma {:induction false} NotNoneOfOnly(args: seq<Annotation>, a: Annotation)
    ensures NotNone(args) == [a] <==> OnlyMember(args, a)
  {
    if args != [] {
      var rest := args[1..];
      NotNoneMembers(rest);
      NotNoneOfOnly(rest, a);
      if NotNone(args) == [a] {
        OnlyFromNotNone(args, a);
      }
      if OnlyMember(args, a) {
        NotNoneFromOnly(args, a);
      }
    }
  }

  lemma OnlyFromNotNone(args: seq<Annotation>, a: Annotation)
    requires args != [] && NotNone(args) == [a]
    requires NotNone(args[1..]) == [a] ==> OnlyMember(args[1..], a)
    requires NotNone(args[1..]) == [] ==> forall b | b in args[1..] :: b == NoneType
    ensures OnlyMember(args, a)
  {
    if args[0] == NoneType {
      var i :| 0 <= i < |args[1..]| && args[1..][i] == a && a != NoneType
        && forall j | 0 <= j < |args[1..]| && j != i :: args[1..][j] == NoneType;
      assert args[i + 1] == a;
      forall j | 0 <= j < |args| && j != i + 1 ensures args[j] == NoneType {
        assert j > 0 ==> args[1..][j - 1] == args[j];
      }
    } else {
      assert NotNone(args)[0] == args[0] && |NotNone(args[1..])| == 0;
      forall j | 0 <= j < |args| && j != 0 ensures args[j] == NoneType {
        assert args[j] in args[1..];
      }
      assert args[0] == a;
    }
  }

  lemma NotNoneFromOnly(args: seq<Annotation>, a: Annotation)
    requires args != [] && OnlyMember(args, a)
    requires OnlyMember(args[1..], a) ==> NotNone(args[1..]) == [a]
    requires (forall b | b in args[1..] :: b == NoneType) ==> NotNone(args[1..]) == []
    ensures NotNone(args) == [a]
  {
    var i :| 0 <= i < |args| && args[i] == a && a != NoneType && forall j | 0 <= j < |args| && j != i :: args[j] == NoneType;
    if i == 0 {
      assert forall b | b in args[1..] :: b == NoneType;
    } else {
      assert args[1..][i - 1] == a;
      assert forall j | 0 <= j < |args[1..]| && j != i - 1 :: args[1..][j] == NoneType;
    }
  }

  /** An annotation that says the same as `a`, in one layer more. */
  ghost predicate Wraps(outer: Annotation, a: Annotation) {
    outer == Annotated(a) || (outer.Union? && OnlyMember(outer.args, a))
  }

  lemma WrapsUnwraps(outer: Annotation, a: Annotation)
    requires Wraps(outer, a)
    ensures UnwrapOptional(outer) == UnwrapOptional(a)
  {
    if outer.Union? {
      NotNoneOfOnly(outer.args, a);
    }
  }

  /** `Annotated[a, ...]`, `Optional[a]` and `a | None` are coerced as `a`, for every value. */
  lemma WrappersAreTransparent(schema: Schema, v: Value, outer: Annotation, a: Annotation)
    requires Wraps(outer, a)
    ensures CoerceFieldValue(schema, v, outer) == CoerceFieldValue(schema, v, a)
  {
    WrapsUnwraps(outer, a);
  }

  /** So are they around the items of a list and the values of a dict. */
  lemma InnerWrappersAreTransparent(schema: Schema, v: Value, k: Annotation, outer: Annotation, a: Annotation)
    requires Wraps(outer, a)
    ensures CoerceFieldValue(schema, v, ListOf([outer])) == CoerceFieldValue(schema, v, ListOf([a]))
    ensures CoerceFieldValue(schema, v, DictOf([k, outer])) == CoerceFieldValue(schema, v, DictOf([k, a]))
  {
    WrapsUnwraps(outer, a);
  }

  // ---------------------------------------------------------------- models, lists and dicts of models

  /** A model field is a section of its own. */
  lemma ModelIsSection(schema: Schema, v: Value, id: string)
    ensures CoerceFieldValue(schema, v, Model(id)) == CoerceSection(schema, v, id)
  {
  }

  /** `r` is the list `items` with a section of the model in every place. */
  ghost predicate SectionsOf(schema: Schema, id: string, items: seq<Value>, r: Value) {
    && r.VList? && |r.items| == |items|
    && forall i | 0 <= i < |items| :: r.items[i] == CoerceSection(schema, items[i], id)
  }

  /** A list of models has a section in every place; a dict of indices is taken as the list it writes. */
  lemma ListOfModels(schema: Schema, v: Value, id: string)
    ensures v.VList? ==> SectionsOf(schema, id, v.items, CoerceFieldValue(schema, v, ListOf([Model(id)])))
    ensures v.VDict? && v.entries != [] && (forall e | e in v.entries :: IsIndexKey(e.key)) ==>
      forall sorted | StableSort.IsStableSort(EntryIndex(), v.entries, sorted) ::
        SectionsOf(schema, id, Values(sorted), CoerceFieldValue(schema, v, ListOf([Model(id)])))
    ensures v.Scalar? || (v.VDict? && (v.entries == [] || exists e | e in v.entries :: !IsIndexKey(e.key))) ==>
      CoerceFieldValue(schema, v, ListOf([Model(id)])) == v
  {
    if v.VList? {
      ItemsAreSections(schema, v.items, id);
    } else if v.VDict? && IsIndexed(v.entries) {
      forall sorted | StableSort.IsStableSort(EntryIndex(), v.entries, sorted)
        ensures SectionsOf(schema, id, Values(sorted), CoerceFieldValue(schema, v, ListOf([Model(id)])))
      {
        IndexedDictIsStableSort(v.entries, sorted);
        ItemsAreSections(schema, Values(sorted), id);
      }
    }
  }

  lemma ItemsAreSections(schema: Schema, items: seq<Value>, id: string)
    ensures SectionsOf(schema, id, items, VList(CoerceItems(schema, items, id)))
  {
    forall i | 0 <= i < |items| ensures CoerceItems(schema, items, id)[i] == CoerceSection(schema, items[i], id) {
      CoerceItemsAt(schema, items, id, i);
    }
  }

  /** A dict of models keeps its keys and has a section under each; nothing else is looked into. */
  lemma DictOfModels(schema: Schema, v: Value, k: Annotation, id: string)
    ensures v.VDict? ==>
      var r := CoerceFieldValue(schema, v, DictOf([k, Model(id)]));
      && r.VDict? && |r.entries| == |v.entries|
      && forall i | 0 <= i < |v.entries| ::
           r.entries[i] == Entry(v.entries[i].key, CoerceSection(schema, v.entries[i].value, id))
    ensures !v.VDict? ==> CoerceFieldValue(schema, v, DictOf([k, Model(id)])) == v
  {
    if v.VDict? {
      forall i | 0 <= i < |v.entries|
        ensures CoerceDictValues(schema, v.entries, id)[i].value == CoerceSection(schema, v.entries[i].value, id)
      {
        CoerceDictValuesAt(schema, v.entries, id, i);
      }
    }
  }

  // ---------------------------------------------------------------- everything else

  /** A union of none or several members besides `None`. */
  ghost predicate RealUnion(a: Annotation) {
    a.Union? && forall b :: !OnlyMember(a.args, b)
  }

  /** No model is seen in the annotation itself. */
  ghost predicate NoModel(a: Annotation) {
    a.NoneType? || a.Plain? || a.ListOf? || a.DictOf? || RealUnion(a)
  }

  lemma NoModelUnwraps(a: Annotation)
    requires NoModel(a)
    ensures UnwrapOptional(a) == a && UnwrapModel(a).None?
  {
    if a.Union? && |NotNone(a.args)| == 1 {
      NotNoneOfOnly(a.args, NotNone(a.args)[0]);
    }
  }

  /** Without a model in an item, a value or the field itself the value stays as it is. */
  lemma NoModelNoChange(schema: Schema, v: Value, a: Annotation)
    requires a.NoneType? || a.Plain? || RealUnion(a)
      || (a.ListOf? && (|a.args| == 1 ==> NoModel(a.args[0])))
      || (a.DictOf? && (|a.args| == 2 ==> NoModel(a.args[1])))
    ensures CoerceFieldValue(schema, v, a) == v
  {
    NoModelUnwraps(a);
    if a.ListOf? && |a.args| == 1 {
      NoModelUnwraps(a.args[0]);
    } else if a.DictOf? && |a.args| == 2 {
      NoModelUnwraps(a.args[1]);
    }
  }

  /** The laws cover every annotation. */
  lemma {:induction false} LawsCoverAll(a: Annotation)
    ensures a.Model? || NoModel(a) || exists b :: b < a && Wraps(a, b)
  {
    if a.Annotated? {
      assert Wraps(a, a.inner);
    } else if a.Union? && !RealUnion(a) {
      var b :| OnlyMember(a.args, b);
      assert b in a.args;
      assert Wraps(a, b);
    }
  }

  /** As in `list[Channel] | None`: the items are sections of the model. */
  lemma OptionalListOfModels(schema: Schema, items: seq<Value>, id: string)
    ensures SectionsOf(schema, id, items, CoerceFieldValue(schema, VList(items), Union([ListOf([Model(id)]), NoneType])))
  {
    var args := [ListOf([Model(id)]), NoneType];
    assert args[0] == ListOf([Model(id)]) && OnlyMember(args, args[0]);
    WrappersAreTransparent(schema, VList(items), Union(args), ListOf([Model(id)]));
    ListOfModels(schema, VList(items), id);
  }

  // ---------------------------------------------------------------- where casing is free

  lemma {:induction false} SameEntriesPointwise(schema: Schema, a: Section, b: Section, model: string)
    ensures SameEntries(schema, a, b, model) <==>
      |a| == |b| && forall i | 0 <= i < |a| :: SameEntry(schema, a[i], b[i], model)
    decreases |a|
  {
    if a != [] && |a| == |b| {
      SameEntriesPointwise(schema, a[..|a| - 1], b[..|b| - 1], model);
    }
  }

  lemma {:induction false} SameItemsPointwise(schema: Schema, a: seq<Value>, b: seq<Value>, model: string)
    ensures SameItems(schema, a, b, model) <==>
      |a| == |b| && forall i | 0 <= i < |a| :: SameSection(schema, a[i], b[i], model)
    decreases |a|
  {
    if a != [] && |a| == |b| {
      SameItemsPointwise(schema, a[..|a| - 1], b[..|b| - 1], model);
    }
  }

  lemma {:induction false} SameDictPointwise(schema: Schema, a: Section, b: Section, model: string)
    ensures SameDictValues(schema, a, b, model) <==>
      |a| == |b| && forall i | 0 <= i < |a| :: a[i].key == b[i].key && SameSection(schema, a[i].value, b[i].value, model)
    decreases |a|
  {
    if a != [] && |a| == |b| {
      SameDictPointwise(schema, a[..|a| - 1], b[..|b| - 1], model);
    }
  }

  /**
   Which differences do not matter in a section: entry by entry, a key that addresses a field may
   be spelt in any casing, with the differences its field allows below it; all else agrees.
   */
  lemma CasingIsFreeForFieldKeys(schema: Schema, a: Section, b: Section, model: string)
    ensures SameSection(schema, VDict(a), VDict(b), model) <==>
      && |a| == |b|
      && forall i | 0 <= i < |a| ::
           var target := TargetField(Fields(schema, model), a[i].key);
           if target.None? then a[i] == b[i]
           else
             && b[i].key.StrKey? && Fold(b[i].key.text) == Fold(a[i].key.text)
             && SameFieldValue(schema, a[i].value, b[i].value, target.value.annotation)
  {
    SameEntriesPointwise(schema, a, b, model);
  }

  /** Below a field of a model the differences are those of its section, through every wrapper. */
  lemma CasingIsFreeInModels(schema: Schema, x: Value, y: Value, outer: Annotation, a: Annotation, id: string)
    ensures Wraps(outer, a) ==> (SameFieldValue(schema, x, y, outer) <==> SameFieldValue(schema, x, y, a))
    ensures SameFieldValue(schema, x, y, Model(id)) <==> SameSection(schema, x, y, id)
  {
    if Wraps(outer, a) {
      WrapsUnwraps(outer, a);
    }
  }

  /** Below a list of models they are those of the sections in every place, below an indexed dict as below a dict. */
  lemma CasingIsFreeInLists(schema: Schema, x: Value, y: Value, id: string, k: Annotation)
    ensures x.VList? && y.VList? ==>
      (SameFieldValue(schema, x, y, ListOf([Model(id)])) <==>
        |x.items| == |y.items| && forall i | 0 <= i < |x.items| :: SameSection(schema, x.items[i], y.items[i], id))
    ensures x.VDict? && y.VDict? && IsIndexed(x.entries) ==>
      (SameFieldValue(schema, x, y, ListOf([Model(id)])) <==> SameFieldValue(schema, x, y, DictOf([k, Model(id)])))
  {
    if x.VList? && y.VList? {
      SameItemsPointwise(schema, x.items, y.items, id);
    }
  }

  /** Below a dict of models its keys agree and the differences are those of the sections under them. */
  lemma CasingIsFreeInDicts(schema: Schema, x: Section, y: Section, id: string, k: Annotation)
    ensures SameFieldValue(schema, VDict(x), VDict(y), DictOf([k, Model(id)])) <==>
      && |x| == |y|
      && forall i | 0 <= i < |x| :: x[i].key == y[i].key && SameSection(schema, x[i].value, y[i].value, id)
  {
    SameDictPointwise(schema, x, y, id);
  }
}
