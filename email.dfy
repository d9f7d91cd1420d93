/**
 * The Email value object: validation of the raw text, then storage of its
 * lowercased, trimmed form.
 */
module EmailValue {
  import opened Wrappers
  import opened JsText

  /** An accepted email; `value` is what `getValue` and `toString` return. */
  datatype Email = Email(value: string)

  /** The three errors the constructor can raise, in the order it checks them. */
  datatype EmailError = Empty | InvalidFormat | TooLong

  const MaxLength := 255

  /** `[^\s@]`: a character allowed in either part of the address. */
  predicate IsAddressChar(c: char) {
    !IsWhitespace(c) && c != '@'
  }

  predicate AllAddressChars(s: string) {
    forall i | 0 <= i < |s| :: IsAddressChar(s[i])
  }

  /** `[^\s@]+\.[^\s@]+`: address characters with a dot that has at least one
      character before it and one after it. */
  predicate IsDomain(d: string) {
    AllAddressChars(d) && exists dot | 0 < dot < |d| - 1 :: d[dot] == '.'
  }

  /** `^[^\s@]+@[^\s@]+\.[^\s@]+$`: a non-empty local part, an `@`, a domain. */
  predicate MatchesPattern(s: string) {
    exists at | 0 < at < |s| :: s[at] == '@' && AllAddressChars(s[..at]) && IsDomain(s[at + 1..])
  }

  /** `validate`: rejects blank text, then text that does not match the
      pattern, then text longer than 255 characters. */
  function Validate(raw: string): (r: Option<EmailError>)
    ensures r == Some(Empty) <==> AllWhitespace(raw)
    ensures r == Some(InvalidFormat) <==> !AllWhitespace(raw) && !MatchesPattern(raw)
    ensures r == Some(TooLong) <==> MatchesPattern(raw) && |raw| > MaxLength
    ensures r == None <==> MatchesPattern(raw) && |raw| <= MaxLength
  {
    if raw == [] || Trim(raw) == [] then Some(Empty)
    else if !MatchesPattern(raw) then Some(InvalidFormat)
    else if |raw| > MaxLength then Some(TooLong)
    else None
  }

  /** `new Email(raw)`: validates, then stores the text lowercased and
      trimmed. */
  function Create(raw: string): Result<Email, EmailError> {
    match Validate(raw)
    case Some(e) => Failure(e)
    case None => Success(Email(Trim(ToLower(raw))))
  }

  function GetValue(e: Email): string {
    e.value
  }

  function ToString(e: Email): string {
    e.value
  }

  /** `equals`: compares the stored (normalised) values. */
  function Equals(a: Email, b: Email): bool {
    a.value == b.value
  }

  /** The only `@` of `s` is at index `at`, and it is not the first character. */
  predicate SoleAtSign(s: string, at: int) {
    0 < at < |s| && s[at] == '@' && forall i | 0 <= i < |s| && s[i] == '@' :: i == at
  }

  /** After the `@` at index `at` there is a `.` with text on both sides. */
  predicate DotInDomain(s: string, at: int) {
    exists dot | at + 1 < dot < |s| - 1 && 0 <= dot :: s[dot] == '.'
  }

  /** What the pattern admits, hence what an accepted address looks like: no
      white space anywhere, exactly one `@` with a non-empty local part before
      it, and a `.` after it with text on both sides. */
  lemma AcceptedShape(raw: string)
    requires MatchesPattern(raw)
    ensures NoWhitespace(raw)
    ensures exists at :: SoleAtSign(raw, at) && DotInDomain(raw, at)
  {
    var at :| 0 < at < |raw| && raw[at] == '@' && AllAddressChars(raw[..at]) && IsDomain(raw[at + 1..]);
    var d := raw[at + 1..];
    forall i | 0 <= i < |raw| ensures !IsWhitespace(raw[i]) && (raw[i] == '@' ==> i == at) {
      if i < at {
        assert raw[..at][i] == raw[i];
      } else if i > at {
        assert d[i - at - 1] == raw[i];
      }
    }
    var dot :| 0 < dot < |d| - 1 && d[dot] == '.';
    assert raw[at + 1 + dot] == '.';
    assert SoleAtSign(raw, at) && DotInDomain(raw, at);
  }

  /** Lowercasing keeps an address in the pattern: ASCII lowercasing never
      creates or removes white space, `@` or `.`. */
  lemma LowerKeepsPattern(s: string)
    requires MatchesPattern(s)
    ensures MatchesPattern(ToLower(s))
  {
    var l := ToLower(s);
    var at :| 0 < at < |s| && s[at] == '@' && AllAddressChars(s[..at]) && IsDomain(s[at + 1..]);
    var d, ld := s[at + 1..], l[at + 1..];
    forall i | 0 <= i < at ensures IsAddressChar(l[..at][i]) {
      assert s[..at][i] == s[i];
    }
    forall i | 0 <= i < |ld| ensures IsAddressChar(ld[i]) {
      assert d[i] == s[at + 1 + i];
    }
    var dot :| 0 < dot < |d| - 1 && d[dot] == '.';
    assert ld[dot] == '.';
    assert IsDomain(ld);
  }

  /** Lowercasing an address in the pattern leaves nothing for `trim` to
      remove and keeps it in the pattern. */
  lemma LowerOfMatching(raw: string)
    requires MatchesPattern(raw)
    ensures var l := ToLower(raw);
      Trim(l) == l && MatchesPattern(l) && ToLower(l) == l
  {
    AcceptedShape(raw);
    var l := ToLower(raw);
    assert NoWhitespace(l) by {
      forall i | 0 <= i < |l| ensures !IsWhitespace(l[i]) {
        assert !IsWhitespace(raw[i]);
      }
    }
    TrimNoWhitespace(l);
    LowerKeepsPattern(raw);
    ToLowerIdempotent(raw);
  }

  /** The lowercased form of an accepted address is accepted too, and is its
      own lowercased, trimmed form. */
  lemma LowerRevalidates(raw: string)
    requires Validate(raw) == None
    ensures var l := ToLower(raw);
      Validate(l) == None && ToLower(l) == l && Trim(l) == l
  {
    LowerOfMatching(raw);
  }

  /** The stored value is the input lowercased (trimming never changes an
      accepted input, which has no white space); `getValue` and `toString`
      both return it; and building an Email from it again gives the same
      Email, so normalisation is stable. */
  lemma {:induction false} StoredValue(raw: string)
    requires Create(raw).Success?
    ensures var e := Create(raw).value;
      e.value == ToLower(raw) && GetValue(e) == e.value && ToString(e) == e.value &&
      Create(e.value) == Success(e)
  {
    assert MatchesPattern(raw) && |raw| <= MaxLength;
    LowerOfMatching(raw);
  }

  /** Two accepted addresses are equal exactly when they agree up to the case
      of their letters. */
  lemma EqualsIgnoresCase(raw1: string, raw2: string)
    requires Create(raw1).Success? && Create(raw2).Success?
    ensures Equals(Create(raw1).value, Create(raw2).value) <==> ToLower(raw1) == ToLower(raw2)
  {
    StoredValue(raw1);
    StoredValue(raw2);
  }
}
