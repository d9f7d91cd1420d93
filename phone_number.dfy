/**
 * The PhoneNumber value object for Mexican numbers: separators are removed,
 * the rest must be digits with an optional leading `+` and 10, 12 or 13
 * characters long, and the stored value is put in `+52` form where the
 * rules recognise it.
 */
module PhoneNumberValue {
  import opened Wrappers
  import opened JsText

  /** An accepted number; `value` is what `getValue` and `toString` return. */
  datatype PhoneNumber = PhoneNumber(value: string)

  /** The errors of `validate`, in the order it checks them. */
  datatype PhoneError = Empty | NotDigits | WrongLength

  /** `[\s\-()]`: the characters both `validate` and `normalize` remove. */
  predicate IsSeparator(c: char) {
    IsWhitespace(c) || c == '-' || c == '(' || c == ')'
  }

  predicate NoSeparators(s: string) {
    forall i | 0 <= i < |s| :: !IsSeparator(s[i])
  }

  /** `replace(/[\s\-()]/g, '')`: the input without its separators, in order. */
  function Clean(s: string): (r: string)
    ensures |r| <= |s| && NoSeparators(r)
  {
    if s == [] then []
    else (if IsSeparator(s[0]) then [] else [s[0]]) + Clean(s[1..])
  }

  /** Cleaning removes separators and nothing else: a text without separators
      is its own cleaning. */
  lemma {:induction false} CleanKeepsPlainText(s: string)
    requires NoSeparators(s)
    ensures Clean(s) == s
  {
    if s != [] {
      assert NoSeparators(s[1..]) by {
        forall i | 0 <= i < |s| - 1 ensures !IsSeparator(s[1..][i]) {
          assert s[1..][i] == s[i + 1];
        }
      }
      CleanKeepsPlainText(s[1..]);
    }
  }

  /** Cleaning distributes over concatenation, so separators may sit anywhere. */
  lemma {:induction false} CleanConcat(a: string, b: string)
    ensures Clean(a + b) == Clean(a) + Clean(b)
  {
    if a != [] {
      assert (a + b)[1..] == a[1..] + b;
      CleanConcat(a[1..], b);
    } else {
      assert a + b == b;
    }
  }

  /** A blank input cleans to the empty text. */
  lemma {:induction false} CleanBlank(s: string)
    requires AllWhitespace(s)
    ensures Clean(s) == []
  {
    if s != [] {
      assert AllWhitespace(s[1..]) by {
        forall i | 0 <= i < |s| - 1 ensures IsWhitespace(s[1..][i]) {
          assert s[1..][i] == s[i + 1];
        }
      }
      CleanBlank(s[1..]);
    }
  }

  /** `^\+?\d+$`: an optional `+`, then at least one digit and nothing else. */
  predicate DigitsWithOptionalPlus(c: string) {
    if c != [] && c[0] == '+' then c[1..] != [] && AllDigits(c[1..])
    else c != [] && AllDigits(c)
  }

  predicate AllowedLength(n: int) {
    n == 10 || n == 12 || n == 13
  }

  /** The checks `validate` makes on the cleaned text: an optional `+` and
      digits, then a length of 10, 12 or 13. */
  function CheckCleaned(c: string): (r: Option<PhoneError>)
    ensures r != Some(Empty)
    ensures r == None <==> DigitsWithOptionalPlus(c) && AllowedLength(|c|)
  {
    if !DigitsWithOptionalPlus(c) then Some(NotDigits)
    else if !AllowedLength(|c|) then Some(WrongLength)
    else None
  }

  /** `validate`: rejects blank text, then checks the cleaned text. */
  function Validate(raw: string): (r: Option<PhoneError>)
    ensures r == Some(Empty) <==> AllWhitespace(raw)
    ensures r == None <==> DigitsWithOptionalPlus(Clean(raw)) && AllowedLength(|Clean(raw)|)
  {
    if raw == [] || Trim(raw) == [] then
      CleanBlank(raw);
      Some(Empty)
    else CheckCleaned(Clean(raw))
  }

  /** The rules of `normalize` on the cleaned text: one that starts with `+52`
      is kept; `52` and ten more digits gets a `+`; ten characters get `+52`
      in front; anything else is kept as it is. */
  function NormalizeCleaned(c: string): string {
    if StartsWith(c, "+52") then c
    else if StartsWith(c, "52") && |c| == 12 then "+" + c
    else if |c| == 10 then "+52" + c
    else c
  }

  /** `normalize`. */
  function Normalize(raw: string): string {
    NormalizeCleaned(Clean(raw))
  }

  /** `new PhoneNumber(raw)`. */
  function Create(raw: string): Result<PhoneNumber, PhoneError> {
    match Validate(raw)
    case Some(e) => Failure(e)
    case None => Success(PhoneNumber(Normalize(raw)))
  }

  function GetValue(p: PhoneNumber): string {
    p.value
  }

  function ToString(p: PhoneNumber): string {
    p.value
  }

  /** `equals`: compares the stored (normalised) values. */
  function Equals(a: PhoneNumber, b: PhoneNumber): bool {
    a.value == b.value
  }

  /** The readable form `+52 (ddd) ddd-dddd` of ten national digits. */
  function Readable(d: string): string
    requires |d| == 10
  {
    "+52 (" + d[..3] + ") " + d[3..6] + "-" + d[6..]
  }

  /** `getFormatted`: drops the first `+52` of the value; ten characters left
      are shown in readable form, otherwise the value is returned. */
  function GetFormatted(p: PhoneNumber): string {
    var digits := ReplaceFirst(p.value, "+52", "");
    if |digits| == 10 then Readable(digits) else p.value
  }

  /** The one accepted shape whose stored value is not accepted again: ten
      cleaned characters that are a `+` and nine digits, not starting `+52`,
      which `normalize` turns into `+52+…`. */
  predicate PlusNineDigits(c: string) {
    |c| == 10 && c[0] == '+' && !StartsWith(c, "+52")
  }

  /** A text without separators is not blank, so `validate` and `normalize`
      work on it directly. */
  lemma PlainText(v: string)
    requires v != [] && NoSeparators(v)
    ensures Validate(v) == CheckCleaned(v)
    ensures Normalize(v) == NormalizeCleaned(v)
  {
    CleanKeepsPlainText(v);
    assert !IsWhitespace(v[0]);
    TrimEmptyIff(v);
  }

  /** On the cleaned text: the normalised form of an accepted text has no
      separators, and passes the checks and normalises to itself exactly
      when the text is not a `+` and nine digits. */
  lemma NormalizedRechecks(c: string)
    requires CheckCleaned(c) == None && NoSeparators(c)
    ensures var v := NormalizeCleaned(c);
      v != [] && NoSeparators(v) &&
      (CheckCleaned(v) == None && NormalizeCleaned(v) == v <==> !PlusNineDigits(c)) &&
      (PlusNineDigits(c) ==> CheckCleaned(v) == Some(NotDigits))
  {
    var v := NormalizeCleaned(c);
    if StartsWith(c, "+52") {
    } else if StartsWith(c, "52") && |c| == 12 {
      assert v[1..] == c;
      assert v[..3] == "+52";
      forall i | 0 <= i < |v| ensures !IsSeparator(v[i]) {
        if i > 0 { assert v[i] == c[i - 1]; }
      }
    } else if |c| == 10 {
      assert v[..3] == "+52";
      forall i | 0 <= i < |v| ensures !IsSeparator(v[i]) {
        if i > 2 { assert v[i] == c[i - 3]; }
      }
      if c[0] == '+' {
        assert v[1..][2] == '+';
      } else {
        assert v[1..] == "52" + c;
        forall i | 0 <= i < |v| - 1 ensures IsDigit(v[1..][i]) {
          if i >= 2 { assert v[1..][i] == c[i - 2]; }
        }
      }
    }
  }

  /** Building a PhoneNumber from an accepted number's stored value gives the
      same PhoneNumber, except in the `+` and nine digits case, where the
      stored value is rejected as not digits. */
  lemma StoredValueRevalidates(raw: string)
    requires Validate(raw) == None
    ensures var v := Normalize(raw);
      (Create(v) == Success(PhoneNumber(v)) <==> !PlusNineDigits(Clean(raw))) &&
      (PlusNineDigits(Clean(raw)) ==> Create(v) == Failure(NotDigits))
  {
    var c := Clean(raw);
    NormalizedRechecks(c);
    PlainText(Normalize(raw));
  }

  lemma PlusNineDigitsPlain()
    ensures Validate("+123456789") == CheckCleaned("+123456789")
    ensures Normalize("+123456789") == NormalizeCleaned("+123456789")
  {
    assert NoSeparators("+123456789");
    PlainText("+123456789");
  }

  lemma PlusNineDigitsChecks()
    ensures CheckCleaned("+123456789") == None
    ensures NormalizeCleaned("+123456789") == "+52+123456789"
  {
    var raw := "+123456789";
    assert raw[1..] == "123456789";
    assert raw[..3][1] != "+52"[1];
  }

  /** A concrete instance: `+123456789` is accepted and stored as
      `+52+123456789`. */
  lemma PlusNineDigitsExample()
    ensures Create("+123456789") == Success(PhoneNumber("+52+123456789"))
  {
    PlusNineDigitsPlain();
    PlusNineDigitsChecks();
  }

  lemma PlusNineDigitsStoredPlain()
    ensures Validate("+52+123456789") == CheckCleaned("+52+123456789")
  {
    assert NoSeparators("+52+123456789");
    PlainText("+52+123456789");
  }

  lemma PlusNineDigitsStoredChecks()
    ensures !DigitsWithOptionalPlus("+52+123456789")
  {
    var v := "+52+123456789";
    assert !IsDigit(v[1..][2]);
  }

  /** ... and `+52+123456789` is not itself a valid phone number. */
  lemma PlusNineDigitsStoredRejected()
    ensures Create("+52+123456789") == Failure(NotDigits)
  {
    PlusNineDigitsStoredPlain();
    PlusNineDigitsStoredChecks();
  }

  /** The national form of a cleaned number: ten digits, preceded by nothing,
      by `52` or by `+52`. */
  predicate NationalForm(c: string, d: string) {
    |d| == 10 && AllDigits(d) && (c == d || c == "52" + d || c == "+52" + d)
  }

  /** On the cleaned text: every national form passes the checks and
      normalises to `+52` and its ten digits. */
  lemma NationalNormalized(c: string, d: string)
    requires NationalForm(c, d)
    ensures CheckCleaned(c) == None
    ensures NormalizeCleaned(c) == "+52" + d
  {
    if c == d {
    } else if c == "52" + d {
      assert c[..2] == "52";
      forall i | 0 <= i < |c| ensures IsDigit(c[i]) {
        if i >= 2 { assert c[i] == d[i - 2]; }
      }
    } else {
      assert c[..3] == "+52";
      assert c[1..] == "52" + d;
      forall i | 0 <= i < |c| - 1 ensures IsDigit(c[1..][i]) {
        if i >= 2 { assert c[1..][i] == d[i - 2]; }
      }
    }
  }

  /** However a national number is spelt (with or without `52` or `+52`, with
      any separators), it is accepted and stored as `+52` and its ten
      digits. */
  lemma NationalStored(raw: string, d: string)
    requires NationalForm(Clean(raw), d)
    ensures Validate(raw) == None
    ensures Normalize(raw) == "+52" + d
  {
    NationalNormalized(Clean(raw), d);
  }

  /** A national number is shown as `+52 (ddd) ddd-dddd`. */
  lemma NationalFormatted(raw: string, d: string)
    requires NationalForm(Clean(raw), d)
    ensures Create(raw).Success?
    ensures GetFormatted(Create(raw).value) == Readable(d)
  {
    NationalStored(raw, d);
    FormattedPlus52(d);
  }

  /** A stored `+52` and ten characters is shown in the readable shape of
      those ten characters. */
  lemma FormattedPlus52(d: string)
    requires |d| == 10
    ensures GetFormatted(PhoneNumber("+52" + d)) == Readable(d)
  {
    DropLeadingPlus52(d);
  }

  /** Removing the first `+52` from `+52` and `d` leaves `d`. */
  lemma DropLeadingPlus52(d: string)
    ensures ReplaceFirst("+52" + d, "+52", "") == d
  {
    var v := "+52" + d;
    assert v[..3] == "+52";
  }

  /** In a cleaned accepted text a `+` can only come first, so a text that
      does not start with `+52` holds no `+52` to remove. */
  lemma NoPlus52Inside(c: string)
    requires DigitsWithOptionalPlus(c) && !StartsWith(c, "+52")
    ensures ReplaceFirst(c, "+52", "") == c
  {
    forall j: nat ensures !OccursAt(c, "+52", j) {
      if j + 3 <= |c| {
        if j == 0 {
          assert c[..3] == c[0..3];
        } else {
          assert c[j..j + 3][0] == c[j];
          if c[0] == '+' {
            assert c[j] == c[1..][j - 1];
          }
        }
      }
    }
  }

  lemma PrefixStarts(p: string, d: string)
    ensures StartsWith(p + d, p)
  {
    assert (p + d)[..|p|] == p;
  }

  /** A cleaned text whose length rules out every national form. */
  lemma NotNationalByShape(c: string)
    requires |c| != 10 || !AllDigits(c)
    requires |c| != 12 || !StartsWith(c, "52")
    requires |c| != 13 || !StartsWith(c, "+52")
    ensures forall d :: !NationalForm(c, d)
  {
    forall d ensures !NationalForm(c, d) {
      PrefixStarts("52", d);
      PrefixStarts("+52", d);
    }
  }

  /** The national digits of a cleaned text, when it has a national form,
      are determined by it. */
  lemma NationalDigitsUnique(c: string, d: string, e: string)
    requires NationalForm(c, d) && NationalForm(c, e)
    ensures d == e
  {
    if |c| == 12 {
      assert c == "52" + d && c == "52" + e;
      assert d == c[2..] && e == c[2..];
    } else if |c| == 13 {
      assert c == "+52" + d && c == "+52" + e;
      assert d == c[3..] && e == c[3..];
    }
  }

  /** The three ways `getFormatted` can show the cleaned text `c` whose
      stored value is `stored`: the readable national digits, the readable
      ten characters of a `+` and nine digits, or the stored value. */
  ghost predicate ShownAs(c: string, g: string, stored: string) {
    (forall d | NationalForm(c, d) :: g == Readable(d)) &&
    (PlusNineDigits(c) ==> g == Readable(c)) &&
    ((forall d :: !NationalForm(c, d)) && !PlusNineDigits(c) ==> g == stored)
  }

  lemma ShownNational(c: string, d: string, stored: string)
    requires NationalForm(c, d)
    ensures ShownAs(c, Readable(d), stored)
  {
    forall e | NationalForm(c, e) ensures Readable(d) == Readable(e) {
      NationalDigitsUnique(c, d, e);
    }
    if |c| == 10 {
      assert c == d && IsDigit(c[0]);
    }
  }

  /** The text after a leading `+52` or `52` of an accepted cleaned text
      is all digits. */
  lemma TailDigits(c: string, k: nat)
    requires DigitsWithOptionalPlus(c) && 1 <= k <= |c|
    ensures AllDigits(c[k..])
  {
    forall i | 0 <= i < |c[k..]| ensures IsDigit(c[k..][i]) {
      assert c[k..][i] == c[k + i];
      if c[0] == '+' {
        assert c[k + i] == c[1..][k + i - 1];
      }
    }
  }

  lemma ShownPlus52(c: string)
    requires DigitsWithOptionalPlus(c) && AllowedLength(|c|) && StartsWith(c, "+52")
    ensures ShownAs(c, GetFormatted(PhoneNumber(NormalizeCleaned(c))), NormalizeCleaned(c))
  {
    assert NormalizeCleaned(c) == c && c == "+52" + c[3..];
    DropLeadingPlus52(c[3..]);
    if |c| == 13 {
      TailDigits(c, 3);
      assert NationalForm(c, c[3..]);
      ShownNational(c, c[3..], c);
    } else {
      assert c[..2] != "52" by {
        assert c[..2][0] == c[0];
      }
      NotNationalByShape(c);
    }
  }

  lemma Shown52(c: string)
    requires DigitsWithOptionalPlus(c) && !StartsWith(c, "+52") && StartsWith(c, "52") && |c| == 12
    ensures ShownAs(c, GetFormatted(PhoneNumber(NormalizeCleaned(c))), NormalizeCleaned(c))
  {
    var d := c[2..];
    assert c == "52" + d;
    assert NormalizeCleaned(c) == "+52" + d;
    DropLeadingPlus52(d);
    TailDigits(c, 2);
    ShownNational(c, d, NormalizeCleaned(c));
  }

  lemma ShownTen(c: string)
    requires DigitsWithOptionalPlus(c) && !StartsWith(c, "+52") && !StartsWith(c, "52") && |c| == 10
    ensures ShownAs(c, GetFormatted(PhoneNumber(NormalizeCleaned(c))), NormalizeCleaned(c))
  {
    assert NormalizeCleaned(c) == "+52" + c;
    DropLeadingPlus52(c);
    if c[0] == '+' {
      assert PlusNineDigits(c);
      NotNationalByShape(c);
    } else {
      assert NationalForm(c, c);
      ShownNational(c, c, NormalizeCleaned(c));
    }
  }

  lemma ShownTenFrom52(c: string)
    requires DigitsWithOptionalPlus(c) && StartsWith(c, "52") && |c| == 10
    ensures ShownAs(c, GetFormatted(PhoneNumber(NormalizeCleaned(c))), NormalizeCleaned(c))
  {
    assert c[0] == '5' by {
      assert c[..2][0] == c[0];
    }
    assert !StartsWith(c, "+52") by {
      assert c[..3][0] == c[0];
    }
    assert NormalizeCleaned(c) == "+52" + c;
    DropLeadingPlus52(c);
    assert NationalForm(c, c);
    ShownNational(c, c, NormalizeCleaned(c));
  }

  lemma ShownOther(c: string)
    requires DigitsWithOptionalPlus(c) && !StartsWith(c, "+52")
    requires !(StartsWith(c, "52") && |c| == 12) && |c| != 10
    ensures ShownAs(c, GetFormatted(PhoneNumber(NormalizeCleaned(c))), NormalizeCleaned(c))
  {
    assert NormalizeCleaned(c) == c;
    NoPlus52Inside(c);
    NotNationalByShape(c);
  }

  /** `getFormatted` on every accepted number: a national number is shown
      as `+52 (ddd) ddd-dddd` of its ten digits; a `+` and nine digits,
      stored as `+52+…`, is shown as that readable shape applied to the ten
      cleaned characters, `+` included; every other accepted number is
      shown as its stored value. */
  lemma FormattedCases(raw: string)
    requires Validate(raw) == None
    ensures Create(raw).Success?
    ensures var c := Clean(raw);
      var g := GetFormatted(Create(raw).value);
      (forall d | NationalForm(c, d) :: g == Readable(d)) &&
      (PlusNineDigits(c) ==> g == Readable(c)) &&
      ((forall d :: !NationalForm(c, d)) && !PlusNineDigits(c) ==> g == Create(raw).value.value)
  {
    var c := Clean(raw);
    assert Create(raw) == Success(PhoneNumber(NormalizeCleaned(c)));
    assert DigitsWithOptionalPlus(c) && AllowedLength(|c|);
    if StartsWith(c, "+52") {
      ShownPlus52(c);
    } else if StartsWith(c, "52") && |c| == 12 {
      Shown52(c);
    } else if StartsWith(c, "52") && |c| == 10 {
      ShownTenFrom52(c);
    } else if |c| == 10 {
      ShownTen(c);
    } else {
      ShownOther(c);
    }
  }

  /** The `+` and nine digits case: `+123456789` is stored as
      `+52+123456789` and shown as `+52 (+12) 345-6789`, which is not the
      `+52 (xxx) xxx-xxxx` shape the method's own description promises. */
  lemma PlusNineDigitsFormatted()
    ensures GetFormatted(PhoneNumber("+52+123456789")) == "+52 (+12) 345-6789"
  {
    FormattedPlus52("+123456789");
    PlusNineStoredSplits();
    PlusNineReadable();
  }

  lemma PlusNineStoredSplits()
    ensures "+52+123456789" == "+52" + "+123456789"
  {
  }

  lemma PlusNineReadable()
    ensures Readable("+123456789") == "+52 (+12) 345-6789"
  {
    var d := "+123456789";
    assert d[..3] == "+12";
    assert d[3..6] == "345";
    assert d[6..] == "6789";
  }

  /** Two spellings of the same national number make equal PhoneNumbers. */
  lemma SameNationalEqual(raw1: string, raw2: string, d: string)
    requires NationalForm(Clean(raw1), d) && NationalForm(Clean(raw2), d)
    ensures Create(raw1).Success? && Create(raw2).Success?
    ensures Equals(Create(raw1).value, Create(raw2).value)
  {
    NationalStored(raw1, d);
    NationalStored(raw2, d);
  }
}
