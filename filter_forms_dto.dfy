/**
 * `FilterFormsDto`, the query of the filter endpoint: each of `colonia` and
 * `municipio` is optional, is trimmed by its transform, and when present
 * must be a non-empty string of at most 100 characters.
 */
module FilterFormsDto {
  import opened Wrappers
  import opened JsText
  import opened RequestValue

  /** The query once it has passed the pipe. */
  datatype FilterForms = FilterForms(colonia: Option<string>, municipio: Option<string>)

  datatype FilterField = ColoniaField | MunicipioField

  function FieldName(f: FilterField): string {
    match f
    case ColoniaField => "colonia"
    case MunicipioField => "municipio"
  }

  /** What the pipe does with a query: lets it through, reports the failing
      fields and the unknown properties, or fails inside a transform (a
      non-string value has no `trim`, and the TypeError escapes the pipe). */
  datatype Outcome =
    | Accepted(dto: FilterForms)
    | Refused(failing: set<FilterField>, unknown: set<string>)
    | TransformFailed

  type Query = map<string, Value>

  function Lookup(query: Query, name: string): Value {
    if name in query then query[name] else Absent
  }

  /** `@Transform(({ value }) => value?.trim())`. */
  function TrimTransform(v: Value): (r: Option<Value>)
    ensures r.None? <==> v.NonString?
  {
    match v
    case Absent => Some(Absent)
    case Str(t) => Some(Str(Trim(t)))
    case NonString(_) => None
  }

  /** `@IsOptional() @IsString() @IsNotEmpty() @MaxLength(100)` on the
      transformed value: an absent value skips every check. */
  predicate FieldOk(v: Value) {
    v.Absent? || (v.Str? && v.text != [] && |v.text| <= 100)
  }

  function AsOption(v: Value): Option<string> {
    if v.Str? then Some(v.text) else None
  }

  predicate IsFieldName(k: string) {
    k == "colonia" || k == "municipio"
  }

  /** A field's value after its transform; `None` when the transform fails. */
  function Transformed(query: Query, f: FilterField): Option<Value> {
    TrimTransform(Lookup(query, FieldName(f)))
  }

  /** The fields whose decorators fail once both transforms have run. */
  function FailingFields(query: Query): (r: set<FilterField>)
    requires Transformed(query, ColoniaField).Some? && Transformed(query, MunicipioField).Some?
    ensures forall f :: f in r <==> !FieldOk(Transformed(query, f).value)
  {
    var c := Transformed(query, ColoniaField).value;
    var m := Transformed(query, MunicipioField).value;
    var r := (if FieldOk(c) then {} else {ColoniaField}) + (if FieldOk(m) then {} else {MunicipioField});
    assert forall f :: f in r <==> !FieldOk(Transformed(query, f).value) by {
      forall f ensures f in r <==> !FieldOk(Transformed(query, f).value) {
        if f == ColoniaField {
          assert Transformed(query, f).value == c;
        } else {
          assert Transformed(query, f).value == m;
        }
      }
    }
    r
  }

  /** The global pipe on the filter query: transforms first, then the
      decorators and the whitelist. */
  function Validate(query: Query): (r: Outcome)
    ensures r.TransformFailed? <==>
      Lookup(query, "colonia").NonString? || Lookup(query, "municipio").NonString?
    ensures r.Accepted? ==> forall k | k in query :: IsFieldName(k)
    ensures r.Refused? ==>
      (forall f :: f in r.failing <==> !FieldOk(Transformed(query, f).value)) &&
      (forall k :: k in r.unknown <==> k in query && !IsFieldName(k)) &&
      (r.failing != {} || r.unknown != {})
  {
    var c := Transformed(query, ColoniaField);
    var m := Transformed(query, MunicipioField);
    if c.None? || m.None? then TransformFailed
    else
      var failing := FailingFields(query);
      var unknown := UnknownProperties(query, IsFieldName);
      if failing == {} && unknown == {} then Accepted(FilterForms(AsOption(c.value), AsOption(m.value)))
      else Refused(failing, unknown)
  }

  /** What an accepted query carries for one field: nothing when the field
      was absent, otherwise its trimmed text, which is non-empty and at most
      100 characters long. */
  predicate CarriesTrimmed(raw: Value, out: Option<string>) {
    (raw.Absent? ==> out.None?) &&
    (raw.Str? ==> out == Some(Trim(raw.text)) && Trim(raw.text) != [] && |Trim(raw.text)| <= 100)
  }

  /** An accepted query holds the trimmed values of its fields, so an empty
      filter never reaches the service. */
  lemma AcceptedCarriesTrimmed(query: Query)
    requires Validate(query).Accepted?
    ensures CarriesTrimmed(Lookup(query, "colonia"), Validate(query).dto.colonia)
    ensures CarriesTrimmed(Lookup(query, "municipio"), Validate(query).dto.municipio)
  {
    assert FieldOk(Transformed(query, ColoniaField).value);
    assert FieldOk(Transformed(query, MunicipioField).value);
  }

  /** A query with no properties at all is accepted and filters nothing. */
  lemma EmptyQueryAccepted()
    ensures Validate(map[]) == Accepted(FilterForms(None, None))
  {
    var q: Query := map[];
    assert UnknownProperties(q, IsFieldName) == {};
  }

  /** A string field whose trimmed value fails its decorators makes the whole
      query refused, with that field reported. */
  lemma FailingFieldRefused(query: Query, f: FilterField)
    requires Lookup(query, FieldName(f)).Str?
    requires !FieldOk(Str(Trim(Lookup(query, FieldName(f)).text)))
    requires !Lookup(query, "colonia").NonString? && !Lookup(query, "municipio").NonString?
    ensures Validate(query).Refused? && f in Validate(query).failing
  {
    assert Transformed(query, f) == Some(Str(Trim(Lookup(query, FieldName(f)).text)));
    assert f in FailingFields(query);
  }

  /** A present value that is blank once trimmed is refused, and that field
      is the one reported. */
  lemma BlankValueRefused(query: Query, f: FilterField)
    requires Lookup(query, FieldName(f)).Str? && AllWhitespace(Lookup(query, FieldName(f)).text)
    requires !Lookup(query, "colonia").NonString? && !Lookup(query, "municipio").NonString?
    ensures Validate(query).Refused? && f in Validate(query).failing
  {
    TrimEmptyIff(Lookup(query, FieldName(f)).text);
    FailingFieldRefused(query, f);
  }

  /** A present value longer than 100 characters once trimmed is refused. */
  lemma LongValueRefused(query: Query, f: FilterField)
    requires Lookup(query, FieldName(f)).Str? && |Trim(Lookup(query, FieldName(f)).text)| > 100
    requires !Lookup(query, "colonia").NonString? && !Lookup(query, "municipio").NonString?
    ensures Validate(query).Refused? && f in Validate(query).failing
  {
    FailingFieldRefused(query, f);
  }
}
