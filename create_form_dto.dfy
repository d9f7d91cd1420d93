/**
 * The constraints of `CreateFormDto`, as the global validation pipe applies
 * them to a request body: unknown properties are refused, and each of the
 * twelve fields must satisfy its own decorators.
 */
module CreateFormDto {
  import opened Wrappers
  import opened JsText
  import opened RequestValue
  import opened ContactForms
  import PhoneNumberValue
  import PostalCodeValue

  /** A request body: property names to values. */
  type Body = map<string, Value>

  /** The value of a property, `Absent` when the body does not have it. */
  function Lookup(body: Body, name: string): Value {
    if name in body then body[name] else Absent
  }

  /** `@IsString() @IsNotEmpty() @MaxLength(max)`: a string other than `''`
      of at most `max` characters. White space counts as content. */
  predicate BoundedText(v: Value, max: nat) {
    v.Str? && v.text != [] && |v.text| <= max
  }

  /** `@IsString() @IsNotEmpty() @Matches(/^[0-9]+$/)` with the given length
      bounds: a non-empty run of ASCII digits. */
  predicate DigitText(v: Value, min: nat, max: nat) {
    v.Str? && v.text != [] && AllDigits(v.text) && min <= |v.text| <= max
  }

  /** The decorators of one field; `isEmail` stands for the library's email
      check, which is not part of this model. */
  predicate FieldOk(f: FormField, v: Value, isEmail: string -> bool) {
    match f
    case Nombre => BoundedText(v, 100)
    case Apellidos => BoundedText(v, 100)
    case NumeroTelefono => DigitText(v, 10, 20)
    case Email => v.Str? && isEmail(v.text) && BoundedText(v, 150)
    case Calle => BoundedText(v, 200)
    case NumeroExterior => BoundedText(v, 10)
    case CodigoPostal => DigitText(v, 1, 10)
    case Colonia => BoundedText(v, 100)
    case Municipio => BoundedText(v, 100)
    case Estado => BoundedText(v, 100)
    case ComunidadPerteneciente => BoundedText(v, 100)
    case PorQueMeInteresa => v.Str? && v.text != []
  }

  predicate IsFieldName(k: string) {
    exists f: FormField :: Name(f) == k
  }

  /** The fields whose decorators fail. */
  function FailingFields(body: Body, isEmail: string -> bool): (r: set<FormField>)
    ensures forall f :: f in r <==> !FieldOk(f, Lookup(body, Name(f)), isEmail)
  {
    var r := set f | f in AllFields && !FieldOk(f, Lookup(body, Name(f)), isEmail);
    forall f: FormField ensures f in AllFields {
      AllFieldsComplete(f);
    }
    r
  }

  /** The pipe lets the body through exactly when nothing is reported. */
  predicate Accepts(body: Body, isEmail: string -> bool) {
    UnknownProperties(body, IsFieldName) == {} && FailingFields(body, isEmail) == {}
  }

  /** Acceptance spelt out: only known properties, every field present as a
      string that satisfies its decorators. */
  lemma AcceptsIff(body: Body, isEmail: string -> bool)
    ensures Accepts(body, isEmail) <==>
      (forall k | k in body :: IsFieldName(k)) &&
      (forall f: FormField :: FieldOk(f, Lookup(body, Name(f)), isEmail))
  {
    if !(forall f: FormField :: FieldOk(f, Lookup(body, Name(f)), isEmail)) {
      var f: FormField :| !FieldOk(f, Lookup(body, Name(f)), isEmail);
      assert f in FailingFields(body, isEmail);
    }
    if !(forall k | k in body :: IsFieldName(k)) {
      var k :| k in body && !IsFieldName(k);
      assert k in UnknownProperties(body, IsFieldName);
    }
  }

  /** Every field is required: a body without one of them is refused, and
      that field is reported. `comunidadPerteneciente` is among them. */
  lemma MissingFieldRefused(body: Body, f: FormField, isEmail: string -> bool)
    requires Name(f) !in body
    ensures f in FailingFields(body, isEmail)
    ensures !Accepts(body, isEmail)
  {
  }

  /** A property outside the DTO makes the body refused, whatever else it holds. */
  lemma UnknownPropertyRefused(body: Body, k: string, isEmail: string -> bool)
    requires k in body && !IsFieldName(k)
    ensures k in UnknownProperties(body, IsFieldName)
    ensures !Accepts(body, isEmail)
  {
  }

  /** An accepted body fits the table: every field is a string no longer
      than its column. */
  lemma AcceptedFitsColumns(body: Body, isEmail: string -> bool, f: FormField)
    requires Accepts(body, isEmail)
    ensures Lookup(body, Name(f)).Str?
    ensures ColumnWidth(f).Some? ==> |Lookup(body, Name(f)).text| <= ColumnWidth(f).value
  {
    AcceptsIff(body, isEmail);
    assert FieldOk(f, Lookup(body, Name(f)), isEmail);
  }

  /** `IsNotEmpty` refuses only `''`: text made only of white space passes
      any bounded text field that is long enough for it. */
  lemma BlankTextAccepted(s: string, max: nat)
    requires s != [] && AllWhitespace(s) && |s| <= max
    ensures BoundedText(Str(s), max)
  {
  }

  /** A phone number the DTO accepts (10 to 20 digits) is also a valid
      PhoneNumber exactly when it has 10, 12 or 13 digits. */
  lemma DtoPhoneVersusValueObject(s: string)
    requires DigitText(Str(s), 10, 20)
    ensures PhoneNumberValue.Validate(s) == None <==> (|s| == 10 || |s| == 12 || |s| == 13)
  {
    assert PhoneNumberValue.NoSeparators(s) by {
      forall i | 0 <= i < |s| ensures !PhoneNumberValue.IsSeparator(s[i]) {
        assert IsDigit(s[i]);
      }
    }
    PhoneNumberValue.PlainText(s);
    assert s[0] != '+' by { assert IsDigit(s[0]); }
  }

  /** A postal code the DTO accepts (1 to 10 digits) is also a valid
      PostalCode exactly when it has five digits and does not start with 0. */
  lemma DtoPostalCodeVersusValueObject(s: string)
    requires DigitText(Str(s), 1, 10)
    ensures PostalCodeValue.Validate(s) == None <==> (|s| == 5 && s[0] != '0')
  {
    assert NoWhitespace(s) by {
      forall i | 0 <= i < |s| ensures !IsWhitespace(s[i]) {
        assert IsDigit(s[i]);
      }
    }
    TrimNoWhitespace(s);
  }
}
