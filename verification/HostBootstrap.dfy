/**
 hosting/host_bootstrap.py and `read_section_field`: how single-field reads and whole-section
 coercion are combined, and when they agree. Validation itself is opaque; what is compared is the
 value handed to it.
 */
module HostBootstrap {
  import opened Wrappers
  import opened AsciiText
  import opened SectionData
  import opened InsertionOrder
  import opened SectionCoercion
  import opened CoercionProperties

  // ---------------------------------------------------------------- single-field reads

  /** `model.model_fields.get(name)` */
  function FieldNamed(fields: seq<Field>, name: string): (r: Option<Field>)
    ensures r.Some? ==> r.value in fields && r.value.name == name
    ensures r.None? ==> forall f | f in fields :: f.name != name
  {
    if fields == [] then None
    else if fields[0].name == name then Some(fields[0])
    else FieldNamed(fields[1..], name)
  }

  /** `read_section_field`: the value that is validated, or None when the default is returned. */
  function ReadSectionField(schema: Schema, model: string, es: Section, name: string): Option<Value> {
    var field := FieldNamed(Fields(schema, model), name);
    var at := FirstMatch(es, name);
    if field.None? || at == |es| then None
    else Some(CoerceFieldValue(schema, es[at].value, field.value.annotation))
  }

  /** The reader and whole-section coercion hand the same value, or none, to validation. */
  ghost predicate ReaderAgrees(schema: Schema, model: string, es: Section, name: string) {
    ReadSectionField(schema, model, es, name) == Get(PutAll(CoerceEntries(schema, model, es)), StrKey(name))
  }

  function Keys(es: Section): (r: seq<Key>)
    ensures |r| == |es|
    ensures forall i | 0 <= i < |es| :: r[i] == es[i].key
  {
    seq(|es|, i requires 0 <= i < |es| => es[i].key)
  }

  ghost predicate NoMatch(keys: seq<Key>, name: string) {
    forall i | 0 <= i < |keys| :: !Matches(keys[i], name)
  }

  ghost predicate AtMostOneMatch(keys: seq<Key>, name: string) {
    forall i, j | 0 <= i < j < |keys| :: !(Matches(keys[i], name) && Matches(keys[j], name))
  }

  /** Keys folding to the field's name belong to this field, not to a later one folding alike. */
  ghost predicate OwnsItsFold(fields: seq<Field>, name: string) {
    Lookup(fields, Fold(name)) == FieldNamed(fields, name)
  }

  lemma {:induction false} LookupFinds(fields: seq<Field>, field: Field)
    requires field in fields
    ensures Lookup(fields, Fold(field.name)).Some?
  {
    var front, last := fields[..|fields| - 1], fields[|fields| - 1];
    assert fields == front + [last];
    if Fold(last.name) != Fold(field.name) {
      LookupFinds(front, field);
    }
  }

  /** A field that lost its fold to a later field is never stored by coercion. */
  lemma {:induction false} LostFieldNeverStored(schema: Schema, model: string, es: Section, name: string)
    requires FieldNamed(Fields(schema, model), name).Some?
    requires !OwnsItsFold(Fields(schema, model), name)
    requires FieldNamesDiffer(Fields(schema, model))
    ensures LastAt(CoerceEntries(schema, model, es), StrKey(name)) == -1
  {
    if es != [] {
      var fields := Fields(schema, model);
      LookupFinds(fields, FieldNamed(fields, name).value);
      LostFieldNeverStored(schema, model, es[..|es| - 1], name);
      var e := CoerceEntry(schema, model, es[|es| - 1]);
      assert Lookup(fields, Fold(name)).value.name != name;
      assert e.key != StrKey(name);
    }
  }

  /** Without a matching key both say default. */
  lemma {:induction false} NoMatchAgrees(schema: Schema, model: string, es: Section, name: string)
    requires FieldNamed(Fields(schema, model), name).Some?
    requires OwnsItsFold(Fields(schema, model), name)
    requires FirstMatch(es, name) == |es|
    ensures ReaderAgrees(schema, model, es, name)
  {
    FieldHoldsLastMatch(schema, model, es, FieldNamed(Fields(schema, model), name).value);
  }

  /** Where the field owns its fold, the reader takes the first match and coercion keeps the last. */
  lemma {:induction false} FirstAgainstLast(schema: Schema, model: string, es: Section, name: string)
    requires FieldNamed(Fields(schema, model), name).Some?
    requires OwnsItsFold(Fields(schema, model), name)
    requires FirstMatch(es, name) < |es|
    ensures LastMatch(es, name) >= 0
    ensures var field := FieldNamed(Fields(schema, model), name).value;
      ReaderAgrees(schema, model, es, name) <==>
        CoerceFieldValue(schema, es[FirstMatch(es, name)].value, field.annotation)
        == CoerceFieldValue(schema, es[LastMatch(es, name)].value, field.annotation)
  {
    FieldHoldsLastMatch(schema, model, es, FieldNamed(Fields(schema, model), name).value);
  }

  lemma {:induction false} OwnerAgrees(schema: Schema, model: string, es: Section, name: string)
    requires FieldNamed(Fields(schema, model), name).Some?
    requires OwnsItsFold(Fields(schema, model), name) && AtMostOneMatch(Keys(es), name)
    ensures ReaderAgrees(schema, model, es, name)
  {
    var first, last := FirstMatch(es, name), LastMatch(es, name);
    if first == |es| {
      NoMatchAgrees(schema, model, es, name);
    } else {
      FirstAgainstLast(schema, model, es, name);
      assert Keys(es)[first] == es[first].key && Keys(es)[last] == es[last].key;
      assert first == last;
    }
  }

  /** The section with these keys whose values are all different. */
  function Numbered(keys: seq<Key>): (r: Section)
    ensures Keys(r) == keys
  {
    seq(|keys|, i requires 0 <= i < |keys| => Entry(keys[i], Scalar(i)))
  }

  lemma ScalarUnchanged(schema: Schema, id: nat, annotation: Annotation)
    ensures CoerceFieldValue(schema, Scalar(id), annotation) == Scalar(id)
  {
  }

  lemma {:induction false} OneMatchAgrees(schema: Schema, model: string, es: Section, name: string)
    requires FieldNamed(Fields(schema, model), name).Some?
    requires FieldNamesDiffer(Fields(schema, model))
    requires AtMostOneMatch(Keys(es), name) && (OwnsItsFold(Fields(schema, model), name) || NoMatch(Keys(es), name))
    ensures ReaderAgrees(schema, model, es, name)
  {
    if OwnsItsFold(Fields(schema, model), name) {
      OwnerAgrees(schema, model, es, name);
    } else {
      LostFieldNeverStored(schema, model, es, name);
      GetAfterPutAll(CoerceEntries(schema, model, es), StrKey(name));
      SomeMatch(es, name);
    }
  }

  /** Two matching keys with different values tell the reader and coercion apart. */
  lemma {:induction false} TwoMatchesDisagree(schema: Schema, model: string, keys: seq<Key>, name: string)
    requires FieldNamed(Fields(schema, model), name).Some?
    requires OwnsItsFold(Fields(schema, model), name) && !AtMostOneMatch(keys, name)
    ensures !ReaderAgrees(schema, model, Numbered(keys), name)
  {
    var es := Numbered(keys);
    var i, j :| 0 <= i < j < |keys| && Matches(keys[i], name) && Matches(keys[j], name);
    assert Keys(es)[i] == es[i].key && Keys(es)[j] == es[j].key;
    var first, last := FirstMatch(es, name), LastMatch(es, name);
    assert first <= i < j <= last;
    FirstAgainstLast(schema, model, es, name);
    ScalarUnchanged(schema, first, FieldNamed(Fields(schema, model), name).value.annotation);
    ScalarUnchanged(schema, last, FieldNamed(Fields(schema, model), name).value.annotation);
  }

  /** A matching key whose fold belongs to another field is read for this field, and never stored in it. */
  lemma {:induction false} StrangerDisagrees(schema: Schema, model: string, keys: seq<Key>, name: string)
    requires FieldNamed(Fields(schema, model), name).Some?
    requires FieldNamesDiffer(Fields(schema, model))
    requires !OwnsItsFold(Fields(schema, model), name) && !NoMatch(keys, name)
    ensures !ReaderAgrees(schema, model, Numbered(keys), name)
  {
    var es := Numbered(keys);
    SomeMatch(es, name);
    LostFieldNeverStored(schema, model, es, name);
    GetAfterPutAll(CoerceEntries(schema, model, es), StrKey(name));
  }

  /**
   Exactly when the reader can be trusted: given only the keys of a section, it agrees with
   coercion whatever the values are if and only if at most one key folds to the field, and the
   field owns its fold unless no key does.
   */
  lemma {:induction false} ReaderAgreesExactlyWhen(schema: Schema, model: string, keys: seq<Key>, name: string)
    requires FieldNamed(Fields(schema, model), name).Some?
    requires FieldNamesDiffer(Fields(schema, model))
    ensures (forall es: Section | Keys(es) == keys :: ReaderAgrees(schema, model, es, name))
       <==> AtMostOneMatch(keys, name) && (OwnsItsFold(Fields(schema, model), name) || NoMatch(keys, name))
  {
    if AtMostOneMatch(keys, name) && (OwnsItsFold(Fields(schema, model), name) || NoMatch(keys, name)) {
      forall es: Section | Keys(es) == keys ensures ReaderAgrees(schema, model, es, name) {
        OneMatchAgrees(schema, model, es, name);
      }
    } else {
      if OwnsItsFold(Fields(schema, model), name) {
        TwoMatchesDisagree(schema, model, keys, name);
      } else {
        StrangerDisagrees(schema, model, keys, name);
      }
      assert Keys(Numbered(keys)) == keys;
    }
  }

  lemma SomeMatch(es: Section, name: string)
    ensures NoMatch(Keys(es), name) <==> FirstMatch(es, name) == |es|
  {
    var first := FirstMatch(es, name);
    if first < |es| {
      assert Matches(Keys(es)[first], name);
    }
  }

  const SHUTDOWN_TIMEOUT := "shutdown_timeout_seconds"

  const HOST_FIELDS: seq<Field> := [Field("server", Model("ServerConfig")), Field(SHUTDOWN_TIMEOUT, Plain("float"))]

  const HOST_SCHEMA: Schema := map["HostConfig" := HOST_FIELDS]

  lemma ShutdownTimeoutOwnsItsFold()
    ensures FieldNamed(HOST_FIELDS, SHUTDOWN_TIMEOUT) == Some(HOST_FIELDS[1])
    ensures Lookup(HOST_FIELDS, Fold(SHUTDOWN_TIMEOUT)) == Some(HOST_FIELDS[1])
  {
    assert HOST_FIELDS[|HOST_FIELDS| - 1] == HOST_FIELDS[1];
    assert HOST_FIELDS[0].name[1] != HOST_FIELDS[1].name[1];
    assert HOST_FIELDS[1..] == [HOST_FIELDS[1]];
  }

  lemma CapitalFoldsAlike(s: string)
    requires s != "" && s[0] == 's'
    ensures Fold(s[0 := 'S']) == Fold(s)
  {
    assert FoldChar('S') == FoldChar('s');
  }

  lemma {:induction false} BothCasings(es: Section)
    requires |es| == 2 && Matches(es[0].key, SHUTDOWN_TIMEOUT) && Matches(es[1].key, SHUTDOWN_TIMEOUT)
    requires es[0].value.Scalar? && es[1].value.Scalar?
    ensures ReadSectionField(HOST_SCHEMA, "HostConfig", es, SHUTDOWN_TIMEOUT) == Some(es[0].value)
    ensures Get(PutAll(CoerceEntries(HOST_SCHEMA, "HostConfig", es)), StrKey(SHUTDOWN_TIMEOUT)) == Some(es[1].value)
  {
    ShutdownTimeoutOwnsItsFold();
    FieldHoldsLastMatch(HOST_SCHEMA, "HostConfig", es, HOST_FIELDS[1]);
    ScalarUnchanged(HOST_SCHEMA, es[0].value.id, HOST_FIELDS[1].annotation);
    ScalarUnchanged(HOST_SCHEMA, es[1].value.id, HOST_FIELDS[1].annotation);
  }

  /**
   A [host] section that says the timeout with and without a capital: the host reads the one where
   coercion keeps the other.
   */
  lemma {:induction false} BothCasingsDisagree()
    ensures var es := [Entry(StrKey(SHUTDOWN_TIMEOUT[0 := 'S']), Scalar(1)), Entry(StrKey(SHUTDOWN_TIMEOUT), Scalar(2))];
      && ReadSectionField(HOST_SCHEMA, "HostConfig", es, SHUTDOWN_TIMEOUT) == Some(Scalar(1))
      && Get(PutAll(CoerceEntries(HOST_SCHEMA, "HostConfig", es)), StrKey(SHUTDOWN_TIMEOUT)) == Some(Scalar(2))
  {
    CapitalFoldsAlike(SHUTDOWN_TIMEOUT);
    BothCasings([Entry(StrKey(SHUTDOWN_TIMEOUT[0 := 'S']), Scalar(1)), Entry(StrKey(SHUTDOWN_TIMEOUT), Scalar(2))]);
  }

  // ---------------------------------------------------------------- the generated instance id

  const INSTANCE_ID := "instance_id"

  const SERVICE_FIELDS: seq<Field> := [
    Field("service_name", Plain("str")), Field("service_version", Plain("str")), Field(INSTANCE_ID, Plain("str"))
  ]

  const SERVICE_SCHEMA: Schema := map["ServiceConfig" := SERVICE_FIELDS]

  /** `{**service, "instance_id": generated}` */
  function MergeInstanceId(service: Section, generated: Value): Section {
    Put(service, StrKey(INSTANCE_ID), generated)
  }

  /** The section bound to `ServiceConfig`. */
  function LoadServiceSection(service: Section, generated: Value): Section {
    PutAll(CoerceEntries(SERVICE_SCHEMA, "ServiceConfig", MergeInstanceId(service, generated)))
  }

  /** An "instance_id" key is followed by another casing of it. */
  ghost predicate Shadowed(service: Section) {
    exists i, j | 0 <= i < j < |service| ::
      service[i].key == StrKey(INSTANCE_ID) && Matches(service[j].key, INSTANCE_ID)
  }

  lemma InstanceIdFieldOwnsItsFold()
    ensures Lookup(SERVICE_FIELDS, Fold(INSTANCE_ID)) == Some(SERVICE_FIELDS[2])
  {
    assert SERVICE_FIELDS[|SERVICE_FIELDS| - 1] == SERVICE_FIELDS[2];
  }

  /** Merging puts the generated id where the first "instance_id" key stands, or at the end. */
  lemma {:induction false} MergedEntries(service: Section, generated: Value)
    ensures var merged, at := MergeInstanceId(service, generated), FirstAt(service, StrKey(INSTANCE_ID));
      && at < |merged| && merged[at] == Entry(StrKey(INSTANCE_ID), generated)
      && |merged| == (if at < |service| then |service| else |service| + 1)
      && forall i | 0 <= i < |service| && i != at :: merged[i] == service[i]
  {
  }

  lemma {:induction false} ShadowedBehindFirst(service: Section)
    requires UniqueKeys(service)
    ensures var at := FirstAt(service, StrKey(INSTANCE_ID));
      Shadowed(service) <==> exists j | at < j < |service| :: Matches(service[j].key, INSTANCE_ID)
  {
    var at := FirstAt(service, StrKey(INSTANCE_ID));
    if Shadowed(service) {
      var i, j :| 0 <= i < j < |service| && service[i].key == StrKey(INSTANCE_ID) && Matches(service[j].key, INSTANCE_ID);
      FirstAtIsFirst(service, StrKey(INSTANCE_ID), i);
    }
  }

  /** The generated id is the last casing of its key exactly when it is not shadowed. */
  lemma {:induction false} GeneratedIdIsLast(service: Section, generated: Value)
    requires UniqueKeys(service)
    ensures var last, at := LastMatch(MergeInstanceId(service, generated), INSTANCE_ID), FirstAt(service, StrKey(INSTANCE_ID));
      last >= at && (last == at <==> !Shadowed(service))
  {
    MergedEntries(service, generated);
    ShadowedBehindFirst(service);
    var merged, at := MergeInstanceId(service, generated), FirstAt(service, StrKey(INSTANCE_ID));
    assert Matches(merged[at].key, INSTANCE_ID);
  }

  /**
   The generated id takes part in a race of casings: merging keeps the position of an existing
   "instance_id" key, so a differently cased key behind it is read last and wins. The generated
   id is bound exactly when there is no such key.
   */
  lemma {:induction false} GeneratedIdWinsExactlyWhen(service: Section, generated: Value)
    requires UniqueKeys(service)
    requires forall i | 0 <= i < |service| :: service[i].value != generated
    ensures Get(LoadServiceSection(service, generated), StrKey(INSTANCE_ID)) == Some(generated)
       <==> !Shadowed(service)
  {
    var merged := MergeInstanceId(service, generated);
    InstanceIdFieldOwnsItsFold();
    FieldHoldsLastMatch(SERVICE_SCHEMA, "ServiceConfig", merged, SERVICE_FIELDS[2]);
    GeneratedIdIsLast(service, generated);
    MergedEntries(service, generated);
  }

  /** Replacing an entry of another key by one of another key leaves the last entry of `k` in its place. */
  lemma {:induction false} LastAtElsewhere(es: Section, i: nat, e: Entry, k: Key)
    requires i < |es| && es[i].key != k && e.key != k
    ensures LastAt(es[i := e], k) == LastAt(es, k)
  {
    var front := es[..|es| - 1];
    if i < |es| - 1 {
      LastAtElsewhere(front, i, e, k);
      assert es[i := e][..|es| - 1] == front[i := e];
    } else {
      assert es[i := e][..|es| - 1] == front;
    }
  }

  lemma {:induction false} CoerceEntriesUpdate(schema: Schema, model: string, es: Section, i: nat, e: Entry)
    requires i < |es|
    ensures CoerceEntries(schema, model, es[i := e]) == CoerceEntries(schema, model, es)[i := CoerceEntry(schema, model, e)]
  {
    var front := es[..|es| - 1];
    if i < |es| - 1 {
      CoerceEntriesUpdate(schema, model, front, i, e);
      assert es[i := e][..|es| - 1] == front[i := e];
    } else {
      assert es[i := e][..|es| - 1] == front;
    }
  }

  lemma InstanceIdKeyStays(e: Entry)
    requires e.key == StrKey(INSTANCE_ID)
    ensures CoerceEntry(SERVICE_SCHEMA, "ServiceConfig", e).key == StrKey(INSTANCE_ID)
  {
    InstanceIdFieldOwnsItsFold();
  }

  /** Everything in the service section but the id is bound as if no id had been generated. */
  lemma {:induction false} OtherServiceFieldsUntouched(service: Section, generated: Value, k: Key)
    requires k != StrKey(INSTANCE_ID)
    ensures Get(LoadServiceSection(service, generated), k)
         == Get(PutAll(CoerceEntries(SERVICE_SCHEMA, "ServiceConfig", service)), k)
  {
    var coerced := CoerceEntries(SERVICE_SCHEMA, "ServiceConfig", service);
    var merged := MergeInstanceId(service, generated);
    var at, e := FirstAt(service, StrKey(INSTANCE_ID)), Entry(StrKey(INSTANCE_ID), generated);
    InstanceIdKeyStays(e);
    GetAfterPutAll(coerced, k);
    GetAfterPutAll(CoerceEntries(SERVICE_SCHEMA, "ServiceConfig", merged), k);
    if at < |service| {
      CoerceEntriesUpdate(SERVICE_SCHEMA, "ServiceConfig", service, at, e);
      CoerceEntriesAt(SERVICE_SCHEMA, "ServiceConfig", service, at);
      InstanceIdKeyStays(service[at]);
      LastAtElsewhere(coerced, at, CoerceEntry(SERVICE_SCHEMA, "ServiceConfig", e), k);
    } else {
      assert merged[..|service|] == service;
      LastAtAppend(coerced, CoerceEntry(SERVICE_SCHEMA, "ServiceConfig", e), k);
    }
  }

  lemma ServiceFieldsOwnTheirFolds()
    ensures Lookup(SERVICE_FIELDS, Fold("service_name")) == Some(Field("service_name", Plain("str")))
    ensures Lookup(SERVICE_FIELDS, Fold("service_version")) == Some(Field("service_version", Plain("str")))
  {
    var fields := SERVICE_FIELDS;
    assert |Fold(fields[0].name)| == 12 && |Fold(fields[1].name)| == 15 && |Fold(fields[2].name)| == 11;
    LookupFindsLast(fields, 0, Fold("service_name"));
    LookupFindsLast(fields, 1, Fold("service_version"));
  }

  /** Name and version are bound to what the section says, in whichever casing. */
  lemma {:induction false} NameAndVersionAreBound(service: Section, generated: Value, name: string)
    requires name == "service_name" || name == "service_version"
    ensures Get(LoadServiceSection(service, generated), StrKey(name)) ==
      var at := LastMatch(service, name);
      if at < 0 then None else Some(service[at].value)
  {
    ServiceFieldsOwnTheirFolds();
    assert |name| != |INSTANCE_ID|;
    OtherServiceFieldsUntouched(service, generated, StrKey(name));
    FieldHoldsLastMatch(SERVICE_SCHEMA, "ServiceConfig", service, Field(name, Plain("str")));
  }

  /** A section that says both casings loses the generated id. */
  lemma {:induction false} ShadowedInstanceId()
    ensures var service := [Entry(StrKey("instance_id"), Scalar(1)), Entry(StrKey("INSTANCE_ID"), Scalar(2))];
      && UniqueKeys(service)
      && Get(LoadServiceSection(service, Scalar(3)), StrKey(INSTANCE_ID)) != Some(Scalar(3))
  {
    var service := [Entry(StrKey("instance_id"), Scalar(1)), Entry(StrKey("INSTANCE_ID"), Scalar(2))];
    assert Matches(service[1].key, INSTANCE_ID) by {
      assert Fold("INSTANCE_ID") == Fold("instance_id");
    }
    assert service[0].key == StrKey(INSTANCE_ID) && Matches(service[1].key, INSTANCE_ID);
    assert "instance_id"[0] != "INSTANCE_ID"[0];
    assert Shadowed(service);
    GeneratedIdWinsExactlyWhen(service, Scalar(3));
  }
}
