/** The schema compiler of schema/schema.go: a definition written as
    comma-separated fields `name:type` or `name:type:description` becomes the
    JSON text of an OpenAPI object schema (a subset of the Schema Object of
    section 4.7.24 of the OpenAPI Specification 3.0.3); an empty definition,
    or one that already starts with `{`, is handed through unchanged. */
module SchemaDsl {
  import opened Wrappers
  import opened Text
  import opened Escaping

  /** What the compiled schema says about one property. */
  datatype Property = Property(typeName: string, description: string)

  /** The compiled schema: `{"type":"object","properties":{...}}`. */
  datatype ObjectSchema = ObjectSchema(properties: map<string, Property>)

  /** One field of a definition, as Build reads it. */
  datatype Field = Field(name: string, property: Property)

  datatype BuildError =
    | MissingField(definition: string)   // a field that is empty once trimmed
    | InvalidFormat(field: string)       // not two or three `:`-separated parts
    | EmptyNameOrType(field: string)

  /** The body of Build's loop on one comma-separated piece `raw`. */
  function ParseField(definition: string, raw: string): Result<Field, BuildError> {
    var field := TrimSpace(raw);
    if field == "" then Failure(MissingField(definition))
    else
      var attributes := Split(field, ':');
      if |attributes| != 2 && |attributes| != 3 then Failure(InvalidFormat(field))
      else
        var name := TrimSpace(attributes[0]);
        var typeName := TrimSpace(attributes[1]);
        var description := if |attributes| == 3 then TrimSpace(attributes[2]) else "";
        if name == "" || typeName == "" then Failure(EmptyNameOrType(field))
        else Success(Field(name, Property(typeName, description)))
  }

  /** Each comma-separated piece of a definition, read by ParseField. */
  function ParseFields(definition: string, fields: seq<string>): (parsed: seq<Result<Field, BuildError>>)
    ensures |parsed| == |fields|
  {
    seq(|fields|, i requires 0 <= i < |fields| => ParseField(definition, fields[i]))
  }

  /** The properties after taking the read fields in order, a later field
      of the same name replacing an earlier one, or the error of the first
      field that could not be read. */
  function Compile(parsed: seq<Result<Field, BuildError>>): Result<map<string, Property>, BuildError> {
    if parsed == [] then Success(map[])
    else
      match Compile(parsed[..|parsed| - 1])
      case Failure(e) => Failure(e)
      case Success(props) =>
        match parsed[|parsed| - 1]
        case Failure(e) => Failure(e)
        case Success(f) => Success(props[f.name := f.property])
  }

  // ---------------------------------------------------------------------
  // The canonical serialiser: json.Marshal writes the keys of every map in
  // increasing order, so "properties" precedes "type" and "description"
  // precedes "type".

  function Member(name: string, p: Property): string {
    JsonString(name) + ":{\"description\":" + JsonString(p.description)
      + ",\"type\":" + JsonString(p.typeName) + "}"
  }

  function Members(names: seq<string>, props: map<string, Property>): string
    requires forall n :: n in names ==> n in props
  {
    if names == [] then ""
    else if |names| == 1 then Member(names[0], props[names[0]])
    else Member(names[0], props[names[0]]) + "," + Members(names[1..], props)
  }

  function Serialise(schema: ObjectSchema): string {
    "{\"properties\":{" + Members(SortedKeys(schema.properties.Keys), schema.properties)
      + "},\"type\":\"object\"}"
  }

  /** Build as a whole: the literal schema handed through, or the compiled
      schema's JSON text, or the first field error. */
  function BuildSpec(definition: string): Result<string, BuildError> {
    if definition == "" || definition[0] == '{' then Success(definition)
    else
      match Compile(ParseFields(definition, Split(definition, ',')))
      case Failure(e) => Failure(e)
      case Success(props) => Success(Serialise(ObjectSchema(props)))
  }

  /** A failure on a prefix of the fields is the failure of them all: no
      later field can undo it, and nothing partial is returned. */
  lemma {:induction false} CompilePrefixFailure(parsed: seq<Result<Field, BuildError>>, k: nat)
    requires k <= |parsed|
    requires Compile(parsed[..k]).Failure?
    ensures Compile(parsed) == Compile(parsed[..k])
    decreases |parsed| - k
  {
    if k < |parsed| {
      assert parsed[..k + 1][..k] == parsed[..k];
      CompilePrefixFailure(parsed, k + 1);
    } else {
      assert parsed[..k] == parsed;
    }
  }

  /** One more field that reads adds its property to the compiled map. */
  lemma CompileStep(parsed: seq<Result<Field, BuildError>>, i: nat, props: map<string, Property>, f: Field)
    requires i < |parsed| && parsed[i] == Success(f)
    requires Compile(parsed[..i]) == Success(props)
    ensures Compile(parsed[..i + 1]) == Success(props[f.name := f.property])
  {
    assert parsed[..i + 1][..i] == parsed[..i];
  }

  /** A field that does not read stops the compilation with its error. */
  lemma CompileStop(parsed: seq<Result<Field, BuildError>>, i: nat, props: map<string, Property>, e: BuildError)
    requires i < |parsed| && parsed[i] == Failure(e)
    requires Compile(parsed[..i]) == Success(props)
    ensures Compile(parsed) == Failure(e)
  {
    assert parsed[..i + 1][..i] == parsed[..i];
    CompilePrefixFailure(parsed, i + 1);
  }

  /** Build: the loop of schema/schema.go over the comma-separated fields,
      inserting each into the properties map and returning at the first
      field it cannot read. */
  method Build(definition: string) returns (r: Result<string, BuildError>)
    ensures r == BuildSpec(definition)
    ensures definition == "" || definition[0] == '{' ==> r == Success(definition)
  {
    if definition == "" || definition[0] == '{' {
      return Success(definition);
    }
    var properties: map<string, Property> := map[];
    var fields := Split(definition, ',');
    ghost var parsed := ParseFields(definition, fields);
    var i := 0;
    while i < |fields|
      invariant 0 <= i <= |fields|
      invariant Compile(parsed[..i]) == Success(properties)
    {
      var f := ParseField(definition, fields[i]);
      assert parsed[i] == f;
      if f.Failure? {
        CompileStop(parsed, i, properties, f.error);
        BuildSpecFailed(definition, f.error);
        return Failure(f.error);
      }
      CompileStep(parsed, i, properties, f.value);
      properties := properties[f.value.name := f.value.property];
      i := i + 1;
    }
    assert parsed[..i] == parsed;
    BuildSpecCompiled(definition, properties);
    r := Success(Serialise(ObjectSchema(properties)));
  }

  lemma BuildSpecFailed(definition: string, e: BuildError)
    requires definition != "" && definition[0] != '{'
    requires Compile(ParseFields(definition, Split(definition, ','))) == Failure(e)
    ensures BuildSpec(definition) == Failure(e)
  {
  }

  lemma BuildSpecCompiled(definition: string, props: map<string, Property>)
    requires definition != "" && definition[0] != '{'
    requires Compile(ParseFields(definition, Split(definition, ','))) == Success(props)
    ensures BuildSpec(definition) == Success(Serialise(ObjectSchema(props)))
  {
  }

  lemma BuildSpecFields(definition: string, fields: seq<string>, props: map<string, Property>)
    requires definition != "" && definition[0] != '{'
    requires Split(definition, ',') == fields
    requires Compile(ParseFields(definition, fields)) == Success(props)
    ensures BuildSpec(definition) == Success(Serialise(ObjectSchema(props)))
  {
    BuildSpecCompiled(definition, props);
  }

  // ---------------------------------------------------------------------
  // What Build promises

  /** A trailing comma leaves an empty last field, so the build fails. */
  lemma TrailingCommaFails(definition: string)
    requires definition != "" && definition[0] != '{'
    ensures BuildSpec(definition + ",").Failure?
  {
    var d := definition + ",";
    var fields := Split(d, ',');
    SplitTrailing(definition, ',');
    assert fields[|fields| - 1] == "";
    var parsed := ParseFields(d, fields);
    EmptyFieldMissing(d);
    assert parsed[|fields| - 1].Failure?;
    CompileFailure(parsed);
    assert d[0] == definition[0];
    BuildSpecFailed(d, Compile(parsed).error);
  }

  /** The three ways a field fails to read: it is empty once trimmed; it
      does not have two or three `:`-separated parts; or its trimmed name or
      type is empty. Any other field reads. */
  lemma FieldErrors(definition: string, raw: string)
    ensures var field := TrimSpace(raw);
            var parts := Split(field, ':');
            && (ParseField(definition, raw) == Failure(MissingField(definition)) <==> field == "")
            && (ParseField(definition, raw) == Failure(InvalidFormat(field)) <==>
                  field != "" && |parts| != 2 && |parts| != 3)
            && (ParseField(definition, raw) == Failure(EmptyNameOrType(field)) <==>
                  field != "" && (|parts| == 2 || |parts| == 3)
                  && (TrimSpace(parts[0]) == "" || TrimSpace(parts[1]) == ""))
            && (ParseField(definition, raw).Success? <==>
                  field != "" && (|parts| == 2 || |parts| == 3)
                  && TrimSpace(parts[0]) != "" && TrimSpace(parts[1]) != "")
  {
    var field := TrimSpace(raw);
    var r := ParseField(definition, raw);
    if field != "" {
      var parts := Split(field, ':');
      if |parts| == 2 || |parts| == 3 {
        var name, typeName := TrimSpace(parts[0]), TrimSpace(parts[1]);
        var description := if |parts| == 3 then TrimSpace(parts[2]) else "";
        if name == "" || typeName == "" {
          assert r == Failure(EmptyNameOrType(field));
        } else {
          assert r == Success(Field(name, Property(typeName, description)));
        }
      } else {
        assert r == Failure(InvalidFormat(field));
      }
    } else {
      assert r == Failure(MissingField(definition));
    }
  }

  /** When every field before the i-th reads and the i-th does not,
      compiling fails with the i-th field's error. */
  lemma FirstFailureDecides(parsed: seq<Result<Field, BuildError>>, i: nat)
    requires i < |parsed| && parsed[i].Failure?
    requires forall j :: 0 <= j < i ==> parsed[j].Success?
    ensures Compile(parsed) == Failure(parsed[i].error)
  {
    var init := parsed[..i];
    CompileFailure(init);
    assert forall j :: 0 <= j < |init| ==> init[j].Success?;
    CompileStop(parsed, i, Compile(init).value, parsed[i].error);
  }

  /** The first field that does not read decides the build: its error, by
      the rules of FieldErrors, is the error of the whole definition. */
  lemma FirstUnreadableField(definition: string, fields: seq<string>, i: nat)
    requires definition != "" && definition[0] != '{'
    requires fields == Split(definition, ',')
    requires i < |fields|
    requires forall j :: 0 <= j < i ==> ParseField(definition, fields[j]).Success?
    requires ParseField(definition, fields[i]).Failure?
    ensures var field := TrimSpace(fields[i]);
            var parts := Split(field, ':');
            && (field == "" ==> BuildSpec(definition) == Failure(MissingField(definition)))
            && (field != "" && |parts| != 2 && |parts| != 3 ==>
                  BuildSpec(definition) == Failure(InvalidFormat(field)))
            && (field != "" && (|parts| == 2 || |parts| == 3) ==>
                  BuildSpec(definition) == Failure(EmptyNameOrType(field)))
  {
    var parsed := ParseFields(definition, fields);
    var e := parsed[i].error;
    assert ParseField(definition, fields[i]) == Failure(e);
    assert forall j :: 0 <= j < i ==> parsed[j].Success?;
    FirstFailureDecides(parsed, i);
    BuildSpecFailed(definition, e);
    assert BuildSpec(definition) == Failure(e);
    FieldError(definition, fields[i], e);
  }

  /** FieldErrors for a field known not to read, stated on its error. */
  lemma FieldError(definition: string, raw: string, e: BuildError)
    requires ParseField(definition, raw) == Failure(e)
    ensures var field := TrimSpace(raw);
            var parts := Split(field, ':');
            && (field == "" ==> e == MissingField(definition))
            && (field != "" && |parts| != 2 && |parts| != 3 ==> e == InvalidFormat(field))
            && (field != "" && (|parts| == 2 || |parts| == 3) ==> e == EmptyNameOrType(field))
  {
    FieldErrors(definition, raw);
  }

  lemma EmptyFieldMissing(definition: string)
    ensures ParseField(definition, "") == Failure(MissingField(definition))
  {
    assert TrimSpace("") == "";
  }

  /** Compiling fails exactly when some field fails, and then with the error
      of the first field that fails. */
  lemma {:induction false} CompileFailure(parsed: seq<Result<Field, BuildError>>)
    ensures Compile(parsed).Failure? <==> exists i :: 0 <= i < |parsed| && parsed[i].Failure?
    ensures Compile(parsed).Failure? ==>
            exists i :: 0 <= i < |parsed| && parsed[i] == Failure(Compile(parsed).error)
                        && forall j :: 0 <= j < i ==> parsed[j].Success?
    decreases |parsed|
  {
    if parsed != [] {
      var init := parsed[..|parsed| - 1];
      CompileFailure(init);
      assert forall j :: 0 <= j < |init| ==> init[j] == parsed[j];
    }
  }

  /** The property names of a compiled schema are exactly the field names. */
  lemma {:induction false} CompileNames(parsed: seq<Result<Field, BuildError>>)
    requires Compile(parsed).Success?
    ensures forall i :: 0 <= i < |parsed| ==> parsed[i].Success?
    ensures Compile(parsed).value.Keys == set i | 0 <= i < |parsed| :: parsed[i].value.name
    decreases |parsed|
  {
    if parsed != [] {
      var init := parsed[..|parsed| - 1];
      CompileNames(init);
      assert forall j :: 0 <= j < |init| ==> init[j] == parsed[j];
      assert (set i | 0 <= i < |parsed| :: parsed[i].value.name)
             == (set i | 0 <= i < |init| :: init[i].value.name) + {parsed[|parsed| - 1].value.name};
    }
  }

  /** Each name maps to the property of the last field that carries it. */
  lemma {:induction false} CompileLastWins(parsed: seq<Result<Field, BuildError>>, i: nat)
    requires Compile(parsed).Success?
    requires i < |parsed| && parsed[i].Success?
    requires forall j :: i < j < |parsed| && parsed[j].Success? ==> parsed[j].value.name != parsed[i].value.name
    ensures parsed[i].value.name in Compile(parsed).value
    ensures Compile(parsed).value[parsed[i].value.name] == parsed[i].value.property
    decreases |parsed|
  {
    var init := parsed[..|parsed| - 1];
    if i < |parsed| - 1 {
      assert forall j :: 0 <= j < |init| ==> init[j] == parsed[j];
      CompileLastWins(init, i);
    }
  }

  // ---------------------------------------------------------------------
  // Round trip: writing fields out in the DSL and building gives them back

  /** A field the DSL can express: name and type non-empty, no part with
      surrounding white space or a `:` or `,` inside. */
  predicate Expressible(f: Field) {
    && f.name != "" && f.property.typeName != ""
    && Trimmed(f.name) && Trimmed(f.property.typeName) && Trimmed(f.property.description)
    && ':' !in f.name && ':' !in f.property.typeName && ':' !in f.property.description
    && ',' !in f.name && ',' !in f.property.typeName && ',' !in f.property.description
  }

  function FormatField(f: Field): string {
    f.name + ":" + f.property.typeName + ":" + f.property.description
  }

  /** A definition listing the fields, comma-separated. */
  function Format(fs: seq<Field>): string
    requires |fs| >= 1
  {
    Join(seq(|fs|, i requires 0 <= i < |fs| => FormatField(fs[i])), ',')
  }

  /** The properties the fields describe, a later name replacing an earlier. */
  function PropertiesOf(fs: seq<Field>): map<string, Property> {
    if fs == [] then map[]
    else PropertiesOf(fs[..|fs| - 1])[fs[|fs| - 1].name := fs[|fs| - 1].property]
  }

  /** An expressible field written out is read back as itself. */
  lemma ParseFormattedField(definition: string, f: Field)
    requires Expressible(f)
    ensures ParseField(definition, FormatField(f)) == Success(f)
  {
    var raw := FormatField(f);
    var parts := [f.name, f.property.typeName, f.property.description];
    assert parts[1..] == [f.property.typeName, f.property.description];
    assert parts[1..][1..] == [f.property.description];
    assert Join(parts[1..], ':') == f.property.typeName + ":" + f.property.description;
    assert Join(parts, ':') == raw;
    assert raw[0] == f.name[0];
    assert Trimmed(raw);
    TrimmedUnchanged(raw);
    SplitJoin(parts, ':');
    TrimmedUnchanged(f.name);
    TrimmedUnchanged(f.property.typeName);
    TrimmedUnchanged(f.property.description);
  }

  /** The two-part form `name:type` is read with an empty description. */
  lemma ParseNameType(definition: string, name: string, typeName: string)
    requires Expressible(Field(name, Property(typeName, "")))
    ensures ParseField(definition, name + ":" + typeName) == Success(Field(name, Property(typeName, "")))
  {
    var raw := name + ":" + typeName;
    var parts := [name, typeName];
    assert parts[1..] == [typeName];
    assert Join(parts, ':') == raw;
    assert raw[0] == name[0] && raw[|raw| - 1] == typeName[|typeName| - 1];
    TrimmedUnchanged(raw);
    SplitJoin(parts, ':');
    TrimmedUnchanged(name);
    TrimmedUnchanged(typeName);
  }

  lemma {:induction false} CompileSuccesses(parsed: seq<Result<Field, BuildError>>, fs: seq<Field>)
    requires |parsed| == |fs|
    requires forall i :: 0 <= i < |fs| ==> parsed[i] == Success(fs[i])
    ensures Compile(parsed) == Success(PropertiesOf(fs))
    decreases |fs|
  {
    if fs != [] {
      CompileSuccesses(parsed[..|fs| - 1], fs[..|fs| - 1]);
    }
  }

  /** A definition written out starts with its first field's name. */
  lemma FormatStart(fs: seq<Field>)
    requires |fs| >= 1 && fs[0].name != ""
    ensures Format(fs) != [] && Format(fs)[0] == fs[0].name[0]
  {
    var fields := seq(|fs|, i requires 0 <= i < |fs| => FormatField(fs[i]));
    if |fs| > 1 {
      assert Format(fs) == fields[0] + [','] + Join(fields[1..], ',');
    }
  }

  /** The pieces a definition written out from fields is split into. */
  function FormattedFields(fs: seq<Field>): (fields: seq<string>)
    ensures |fields| == |fs|
  {
    seq(|fs|, i requires 0 <= i < |fs| => FormatField(fs[i]))
  }

  lemma FormatFieldNoComma(f: Field)
    requires Expressible(f)
    ensures ',' !in FormatField(f)
  {
  }

  /** A definition written out from expressible fields splits at its commas
      into exactly the written fields. */
  lemma FormatSplits(fs: seq<Field>)
    requires |fs| >= 1
    requires forall i :: 0 <= i < |fs| ==> Expressible(fs[i])
    ensures Split(Format(fs), ',') == FormattedFields(fs)
  {
    var fields := FormattedFields(fs);
    forall i | 0 <= i < |fields|
      ensures ',' !in fields[i]
    {
      FormatFieldNoComma(fs[i]);
    }
    assert Format(fs) == Join(fields, ',');
    SplitJoin(fields, ',');
  }

  /** Every field written out is read back, whatever the definition. */
  lemma CompileFormatted(definition: string, fs: seq<Field>)
    requires forall i :: 0 <= i < |fs| ==> Expressible(fs[i])
    ensures Compile(ParseFields(definition, FormattedFields(fs))) == Success(PropertiesOf(fs))
  {
    var parsed := ParseFields(definition, FormattedFields(fs));
    forall i | 0 <= i < |fs|
      ensures parsed[i] == Success(fs[i])
    {
      ParseFormattedField(definition, fs[i]);
    }
    CompileSuccesses(parsed, fs);
  }

  /** Building the definition that lists some expressible fields recovers
      exactly those fields (the last of a repeated name winning), serialised
      canonically. */
  lemma BuildFormatted(fs: seq<Field>)
    requires |fs| >= 1
    requires forall i :: 0 <= i < |fs| ==> Expressible(fs[i])
    requires !HasPrefix(fs[0].name, "{")
    ensures BuildSpec(Format(fs)) == Success(Serialise(ObjectSchema(PropertiesOf(fs))))
  {
    var definition := Format(fs);
    var name := fs[0].name;
    assert Expressible(fs[0]);
    assert name[0] != '{';
    FormatStart(fs);
    FormatSplits(fs);
    CompileFormatted(definition, fs);
    BuildSpecFields(definition, FormattedFields(fs), PropertiesOf(fs));
  }

  /** The names of the properties are the names of the fields. */
  lemma {:induction false} PropertiesOfNames(fs: seq<Field>)
    ensures PropertiesOf(fs).Keys == set i | 0 <= i < |fs| :: fs[i].name
    decreases |fs|
  {
    if fs != [] {
      var init := fs[..|fs| - 1];
      PropertiesOfNames(init);
      assert forall j :: 0 <= j < |init| ==> init[j] == fs[j];
      assert (set i | 0 <= i < |fs| :: fs[i].name) == (set i | 0 <= i < |init| :: init[i].name) + {fs[|fs| - 1].name};
    }
  }

  // ---------------------------------------------------------------------
  // Worked cases

  lemma SingleKey(props: map<string, Property>, name: string)
    requires props.Keys == {name}
    ensures SortedKeys(props.Keys) == [name]
  {
    var keys := SortedKeys(props.Keys);
    assert |keys| == 1 && keys[0] in props.Keys;
  }

  lemma CompileOne(definition: string, raw: string, f: Field)
    requires ParseField(definition, raw) == Success(f)
    ensures Compile(ParseFields(definition, [raw])) == Success(map[f.name := f.property])
  {
    var parsed := ParseFields(definition, [raw]);
    assert parsed[..0] == [];
  }

  lemma SingleFieldCompiles(name: string, typeName: string)
    requires Expressible(Field(name, Property(typeName, "")))
    ensures Compile(ParseFields(name + ":" + typeName, Split(name + ":" + typeName, ',')))
            == Success(map[name := Property(typeName, "")])
  {
    var definition := name + ":" + typeName;
    assert ',' !in definition;
    assert Split(definition, ',') == [definition];
    ParseNameType(definition, name, typeName);
    CompileOne(definition, definition, Field(name, Property(typeName, "")));
  }

  /** A schema of one property is that property's member between the
      fixed opening and closing text. */
  lemma SerialiseSingle(name: string, p: Property)
    ensures Serialise(ObjectSchema(map[name := p]))
            == "{\"properties\":{" + Member(name, p) + "},\"type\":\"object\"}"
  {
    SingleKey(map[name := p], name);
  }

  /** With no description, the member's description is the empty literal. */
  lemma MemberEmptyDescription(name: string, typeName: string)
    ensures Member(name, Property(typeName, ""))
            == JsonString(name) + ":{\"description\":\"\",\"type\":" + JsonString(typeName) + "}"
  {
    var a, b := JsonString(name), JsonString(typeName);
    JsonStringPlain("");
    assert JsonString("") == "\"\"";
    assert Member(name, Property(typeName, "")) == a + ":{\"description\":" + "\"\"" + ",\"type\":" + b + "}";
    EmptyDescriptionText(a, b);
  }

  lemma EmptyDescriptionText(a: string, b: string)
    ensures a + ":{\"description\":" + "\"\"" + ",\"type\":" + b + "}"
            == a + ":{\"description\":\"\",\"type\":" + b + "}"
  {
    assert ":{\"description\":" + "\"\"" + ",\"type\":" == ":{\"description\":\"\",\"type\":";
  }

  /** A single field `name:type` compiles to the schema of that one
      property with an empty description; with SerialiseSingle and
      MemberEmptyDescription, `id:integer` becomes
      `{"properties":{"id":{"description":"","type":"integer"}},"type":"object"}`. */
  lemma SingleField(name: string, typeName: string)
    requires Expressible(Field(name, Property(typeName, "")))
    requires !HasPrefix(name, "{")
    ensures BuildSpec(name + ":" + typeName) == Success(Serialise(ObjectSchema(map[name := Property(typeName, "")])))
  {
    assert (name + ":" + typeName)[0] == name[0];
    SingleFieldCompiles(name, typeName);
  }
}
