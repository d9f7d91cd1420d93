/**
 * The PostalCode value object for Mexican postal codes: five digits, not
 * starting with 0, stored trimmed.
 */
module PostalCodeValue {
  import opened Wrappers
  import opened JsText

  /** An accepted postal code; `value` is what `getValue` and `toString` return. */
  datatype PostalCode = PostalCode(value: string)

  /** The errors of `validate`, in the order it checks them. */
  datatype PostalError = Empty | NotDigits | WrongLength | LeadingZero

  /** The shape of an accepted, trimmed postal code. */
  predicate FiveDigitsNoLeadingZero(t: string) {
    |t| == 5 && AllDigits(t) && t[0] != '0'
  }

  /** `validate`: rejects blank text, then a trimmed text that is not
      `^\d+$`, then one that is not five characters, then one that starts
      with `0`. */
  function Validate(raw: string): (r: Option<PostalError>)
    ensures r == Some(Empty) <==> AllWhitespace(raw)
    ensures r == Some(NotDigits) <==> !AllWhitespace(raw) && !AllDigits(Trim(raw))
    ensures r == None <==> FiveDigitsNoLeadingZero(Trim(raw))
  {
    if raw == [] || Trim(raw) == [] then Some(Empty)
    else
      var cleaned := Trim(raw);
      if !(cleaned != [] && AllDigits(cleaned)) then Some(NotDigits)
      else if |cleaned| != 5 then Some(WrongLength)
      else if StartsWith(cleaned, "0") then Some(LeadingZero)
      else None
  }

  /** `new PostalCode(raw)`: validates, then stores the trimmed text. */
  function Create(raw: string): Result<PostalCode, PostalError> {
    match Validate(raw)
    case Some(e) => Failure(e)
    case None => Success(PostalCode(Trim(raw)))
  }

  function GetValue(p: PostalCode): string {
    p.value
  }

  function ToString(p: PostalCode): string {
    p.value
  }

  /** `isInRange`: `parseInt(value, 10)` compared with both bounds; NaN
      compares false. */
  function IsInRange(p: PostalCode, min: int, max: int): bool {
    match ParseInt(p.value)
    case NaN => false
    case Int(n) => min <= n && n <= max
  }

  /** `equals`: compares the stored (trimmed) values. */
  function Equals(a: PostalCode, b: PostalCode): bool {
    a.value == b.value
  }

  /** An accepted postal code is five digits worth between 10000 and 99999,
      and `parseInt` reads exactly that number from it. */
  lemma AcceptedValue(raw: string)
    requires Validate(raw) == None
    ensures var v := Trim(raw);
      FiveDigitsNoLeadingZero(v) && 10000 <= DecimalValue(v) <= 99999 &&
      ParseInt(v) == Int(DecimalValue(v))
  {
    var v := Trim(raw);
    DecimalValueBelow(v);
    DecimalValueLeading(v);
    ParseIntDigits(v);
  }

  /** `isInRange(min, max)` holds exactly when the code's number lies between
      the bounds, both included. */
  lemma InRangeIff(raw: string, min: int, max: int)
    requires Validate(raw) == None
    ensures Create(raw).Success?
    ensures IsInRange(Create(raw).value, min, max) <==> min <= DecimalValue(Trim(raw)) <= max
  {
    AcceptedValue(raw);
  }

  /** Building a PostalCode from a stored value gives the same PostalCode. */
  lemma StoredValueRevalidates(raw: string)
    requires Validate(raw) == None
    ensures Create(Trim(raw)) == Success(PostalCode(Trim(raw)))
  {
    TrimProperties(raw);
  }

  /** Two accepted postal codes are equal exactly when they denote the same
      number, whatever white space surrounded them. */
  lemma EqualsIffSameNumber(raw1: string, raw2: string)
    requires Validate(raw1) == None && Validate(raw2) == None
    ensures Create(raw1).Success? && Create(raw2).Success?
    ensures Equals(Create(raw1).value, Create(raw2).value) <==>
      DecimalValue(Trim(raw1)) == DecimalValue(Trim(raw2))
  {
    var t1, t2 := Trim(raw1), Trim(raw2);
    if DecimalValue(t1) == DecimalValue(t2) {
      DecimalValueInjective(t1, t2);
    }
  }
}
