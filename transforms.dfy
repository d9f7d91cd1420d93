/**
 * The `TransformEmail`, `TransformPhone` and `TransformPostalCode` property
 * transforms: a truthy value is given to the value object's constructor,
 * and its normalised value replaces the input; a falsy value, or one the
 * constructor rejects, is passed through unchanged so that the validators
 * after it see the raw value. A non-string value makes the constructor
 * throw a TypeError on its first string method call, which the same
 * `catch` absorbs.
 */
module Transforms {
  import opened Wrappers
  import opened JsText
  import opened RequestValue
  import EmailValue
  import PhoneNumberValue
  import PostalCodeValue

  /** `TransformEmail`: an accepted email becomes its lowercased form;
      anything else is returned as given. */
  function TransformEmail(v: Value): (r: Value)
    ensures v.Str? && EmailValue.Validate(v.text) == None ==> r == Str(ToLower(v.text))
    ensures !(v.Str? && EmailValue.Validate(v.text) == None) ==> r == v
  {
    if !Truthy(v) then v
    else match v
      case Str(t) =>
        (match EmailValue.Create(t)
         case Success(e) =>
           EmailValue.LowerOfMatching(t);
           Str(EmailValue.GetValue(e))
         case Failure(_) => v)
      case _ => v
  }

  /** `TransformPhone`: an accepted phone number becomes its normalised form;
      anything else is returned as given. */
  function TransformPhone(v: Value): (r: Value)
    ensures v.Str? && PhoneNumberValue.Validate(v.text) == None ==> r == Str(PhoneNumberValue.Normalize(v.text))
    ensures !(v.Str? && PhoneNumberValue.Validate(v.text) == None) ==> r == v
  {
    if !Truthy(v) then v
    else match v
      case Str(t) =>
        (match PhoneNumberValue.Create(t)
         case Success(p) => Str(PhoneNumberValue.GetValue(p))
         case Failure(_) => v)
      case _ => v
  }

  /** `TransformPostalCode`: an accepted postal code becomes its trimmed form;
      anything else is returned as given. */
  function TransformPostalCode(v: Value): (r: Value)
    ensures v.Str? && PostalCodeValue.Validate(v.text) == None ==> r == Str(Trim(v.text))
    ensures !(v.Str? && PostalCodeValue.Validate(v.text) == None) ==> r == v
  {
    if !Truthy(v) then v
    else match v
      case Str(t) =>
        (match PostalCodeValue.Create(t)
         case Success(p) => Str(PostalCodeValue.GetValue(p))
         case Failure(_) => v)
      case _ => v
  }

  /** A falsy value is never touched by any of the three transforms. */
  lemma FalsyUnchanged(v: Value)
    requires !Truthy(v)
    ensures TransformEmail(v) == v && TransformPhone(v) == v && TransformPostalCode(v) == v
  {
    if v.Str? {
      assert AllWhitespace(v.text);
    }
  }

  /** Applying `TransformEmail` twice is applying it once. */
  lemma TransformEmailIdempotent(v: Value)
    ensures TransformEmail(TransformEmail(v)) == TransformEmail(v)
  {
    if v.Str? && EmailValue.Validate(v.text) == None {
      EmailValue.LowerRevalidates(v.text);
    }
  }

  /** Applying `TransformPhone` twice is applying it once, even in the `+`
      and nine digits case, whose second pass rejects the value and so
      returns it unchanged. */
  lemma TransformPhoneIdempotent(v: Value)
    ensures TransformPhone(TransformPhone(v)) == TransformPhone(v)
  {
    if v.Str? && PhoneNumberValue.Validate(v.text) == None {
      PhoneNumberValue.StoredValueRevalidates(v.text);
    }
  }

  /** Applying `TransformPostalCode` twice is applying it once. */
  lemma TransformPostalCodeIdempotent(v: Value)
    ensures TransformPostalCode(TransformPostalCode(v)) == TransformPostalCode(v)
  {
    if v.Str? && PostalCodeValue.Validate(v.text) == None {
      PostalCodeValue.StoredValueRevalidates(v.text);
    }
  }

  lemma PostalCodeExampleTrimStart()
    ensures TrimStart(" 29000 ") == "29000 "
  {
    var s := " 29000 ";
    assert s[1..] == "29000 ";
    assert TrimStart(s[1..]) == s[1..];
  }

  lemma PostalCodeExampleTrimEnd()
    ensures TrimEnd("29000 ") == "29000"
  {
    var s := "29000 ";
    assert s[..5] == "29000";
    assert TrimEnd(s[..5]) == s[..5];
  }

  lemma PostalCodeExampleAccepted()
    ensures PostalCodeValue.Validate(" 29000 ") == None
    ensures Trim(" 29000 ") == "29000"
  {
    PostalCodeExampleTrimStart();
    PostalCodeExampleTrimEnd();
  }

  lemma PostalCodeExampleLeadingZero()
    ensures PostalCodeValue.Validate("01234") == Some(PostalCodeValue.LeadingZero)
  {
    var s := "01234";
    assert NoWhitespace(s) by {
      forall i | 0 <= i < |s| ensures !IsWhitespace(s[i]) {
        assert IsDigit(s[i]);
      }
    }
    TrimNoWhitespace(s);
    assert AllDigits(s);
    assert s[..1] == "0";
  }

  lemma PostalCodeExampleShort()
    ensures PostalCodeValue.Validate("2900") == Some(PostalCodeValue.WrongLength)
  {
    var s := "2900";
    assert NoWhitespace(s) by {
      forall i | 0 <= i < |s| ensures !IsWhitespace(s[i]) {
        assert IsDigit(s[i]);
      }
    }
    TrimNoWhitespace(s);
    assert AllDigits(s);
  }

  /** Concrete instances: `' 29000 '` becomes `'29000'`; `'01234'` (leading
      zero) and `'2900'` (four digits) are returned unchanged. */
  lemma PostalCodeExamples()
    ensures TransformPostalCode(Str(" 29000 ")) == Str("29000")
    ensures TransformPostalCode(Str("01234")) == Str("01234")
    ensures TransformPostalCode(Str("2900")) == Str("2900")
  {
    PostalCodeExampleAccepted();
    PostalCodeExampleLeadingZero();
    PostalCodeExampleShort();
  }
}
