/**
 * The global `AllExceptionsFilter`: the status and message chosen for any
 * exception, the URL with its sensitive query values masked, the stack
 * trace shown only in development, and the log level.
 */
module ExceptionFilter {
  import opened Wrappers
  import opened JsText
  import ServiceErrors

  // ---------------------------------------------------------------------
  // sanitizeUrl: a global, case-insensitive replacement of sensitive query values
  // ---------------------------------------------------------------------

  predicate IsDelimiter(c: char) {
    c == '?' || c == '&'
  }

  /** `name=` starts `s`, the name compared without regard to ASCII case
      (the `i` flag). `name` is written in lower case. */
  predicate NameAt(s: string, name: string) {
    |name| < |s| && (forall i | 0 <= i < |name| :: LowerChar(s[i]) == name[i]) && s[|name|] == '='
  }

  /** `t` is `name` up to the ASCII case of its letters. `name` is written
      in lower case. */
  predicate LowerEq(t: string, name: string) {
    |t| == |name| && forall i | 0 <= i < |t| :: LowerChar(t[i]) == name[i]
  }

  /** `token`, `password` or `secret`, in any case. */
  predicate IsSensitiveName(t: string) {
    LowerEq(t, "token") || LowerEq(t, "password") || LowerEq(t, "secret")
  }

  /** `s` starts with a sensitive name of `m` characters followed by `=`. */
  predicate SensitiveKeyAt(s: string, m: nat) {
    m < |s| && IsSensitiveName(s[..m]) && s[m] == '='
  }

  /** `NameAt` spelt with `LowerEq`. */
  lemma NameAtLowerEq(s: string, name: string)
    ensures NameAt(s, name) <==> |name| < |s| && LowerEq(s[..|name|], name) && s[|name|] == '='
  {
    if |name| < |s| {
      assert forall i | 0 <= i < |name| :: s[..|name|][i] == s[i];
    }
  }

  /** The length of the sensitive name that starts `s` and is followed by
      `=`; 0 when there is none. At most one such name can start `s`. */
  function KeyLen(s: string): (n: nat)
    ensures n == 0 || n == 5 || n == 6 || n == 8
    ensures n > 0 ==> SensitiveKeyAt(s, n)
    ensures forall m: nat | SensitiveKeyAt(s, m) :: m == n
  {
    NameAtLowerEq(s, "token");
    NameAtLowerEq(s, "password");
    NameAtLowerEq(s, "secret");
    if NameAt(s, "token") then 5
    else if NameAt(s, "password") then 8
    else if NameAt(s, "secret") then 6
    else 0
  }

  /** `[^&]*`: the length of the value, which runs up to the next `&`. */
  function ValueLen(s: string): (n: nat)
    ensures n <= |s| && (n < |s| ==> s[n] == '&')
    ensures forall i | 0 <= i < n :: s[i] != '&'
  {
    if s == [] || s[0] == '&' then 0 else 1 + ValueLen(s[1..])
  }

  /** The pattern matches at the start of `s`. */
  predicate MatchStart(s: string) {
    s != [] && IsDelimiter(s[0]) && KeyLen(s[1..]) > 0
  }

  /** `sanitizeUrl`: scanning from the left, each match keeps its delimiter,
      name and `=` and has its value replaced by `***`; scanning resumes
      after the value. */
  function Sanitize(url: string): string
    decreases |url|
  {
    if url == [] then []
    else if MatchStart(url) then
      var k := KeyLen(url[1..]);
      var rest := url[k + 2..];
      url[..k + 2] + "***" + Sanitize(rest[ValueLen(rest)..])
    else [url[0]] + Sanitize(url[1..])
  }

  /** At a match, the value is exactly `***`, ended by `&` or by the end. */
  predicate MaskedStart(s: string)
    requires MatchStart(s)
  {
    var e := 2 + KeyLen(s[1..]);
    e + 3 <= |s| && s[e..e + 3] == "***" && (e + 3 == |s| || s[e + 3] == '&')
  }

  /** Every sensitive parameter of `r` has the value `***`. */
  predicate Masked(r: string) {
    forall i | 0 <= i < |r| && MatchStart(r[i..]) :: MaskedStart(r[i..])
  }

  /** The characters of a sensitive name and its `=` are not delimiters,
      and the name holds no `=`. */
  lemma KeyCharsPlain(s: string)
    requires KeyLen(s) > 0
    ensures forall i | 0 <= i <= KeyLen(s) :: !IsDelimiter(s[i])
    ensures forall i | 0 <= i < KeyLen(s) :: s[i] != '='
  {
    var n := KeyLen(s);
    forall i | 0 <= i <= n ensures !IsDelimiter(s[i]) && (i < n ==> s[i] != '=') {
      if i < n {
        if n == 5 { assert LowerChar(s[i]) == "token"[i]; }
        else if n == 8 { assert LowerChar(s[i]) == "password"[i]; }
        else { assert LowerChar(s[i]) == "secret"[i]; }
      }
    }
  }

  /** The sensitive name found at the start of a string is decided by its
      first `KeyLen + 1` characters. */
  lemma KeyLenFromPrefix(x: string, y: string)
    requires KeyLen(x) > 0 && KeyLen(x) < |y|
    requires x[..KeyLen(x) + 1] == y[..KeyLen(x) + 1]
    ensures KeyLen(y) == KeyLen(x)
  {
    var n := KeyLen(x);
    forall i | 0 <= i <= n ensures x[i] == y[i] {
      assert x[..n + 1][i] == y[..n + 1][i];
    }
    assert LowerChar(y[0]) == LowerChar(x[0]);
  }

  /** Two strings that agree up to and including a delimiter have the same
      sensitive name at their start. */
  lemma KeyLenUpToDelimiter(x: string, y: string, j: nat)
    requires 1 <= j <= |x| && j <= |y| && x[..j] == y[..j] && IsDelimiter(x[j - 1])
    ensures KeyLen(x) == KeyLen(y)
  {
    forall i | 0 <= i < j ensures x[i] == y[i] {
      assert x[..j][i] == y[..j][i];
    }
    if KeyLen(x) > 0 {
      KeyCharsPlain(x);
      assert x[..KeyLen(x) + 1] == y[..KeyLen(x) + 1];
      KeyLenFromPrefix(x, y);
    } else if KeyLen(y) > 0 {
      KeyCharsPlain(y);
      assert y[..KeyLen(y) + 1] == x[..KeyLen(y) + 1];
      KeyLenFromPrefix(y, x);
    }
  }

  /** Sanitising keeps everything up to and including the first delimiter. */
  lemma {:induction false} SanitizeKeepsHead(s: string, j: nat)
    requires j <= |s| && forall i | 0 <= i < j - 1 :: !IsDelimiter(s[i])
    ensures j <= |Sanitize(s)| && Sanitize(s)[..j] == s[..j]
  {
    if j > 0 {
      if MatchStart(s) {
        var k := KeyLen(s[1..]);
        var rest := s[k + 2..];
        assert Sanitize(s) == s[..k + 2] + "***" + Sanitize(rest[ValueLen(rest)..]);
        assert j == 1;
      } else {
        var t := s[1..];
        assert forall i | 0 <= i < j - 2 :: t[i] == s[i + 1];
        SanitizeKeepsHead(t, j - 1);
        assert Sanitize(s) == [s[0]] + Sanitize(t);
        assert s[..j] == [s[0]] + t[..j - 1];
      }
    }
  }

  /** A string without delimiters is its own sanitisation. */
  lemma {:induction false} SanitizeNoDelimiter(s: string)
    requires forall i | 0 <= i < |s| :: !IsDelimiter(s[i])
    ensures Sanitize(s) == s
  {
    if s != [] {
      var t := s[1..];
      assert forall i | 0 <= i < |t| :: t[i] == s[i + 1];
      SanitizeNoDelimiter(t);
    }
  }

  /** When no match starts before index `j`, sanitising keeps the first
      `j` characters as they are and works on the rest alone. */
  lemma {:induction false} SanitizeKeepsUnmatched(s: string, j: nat)
    requires j <= |s| && forall i | 0 <= i < j :: !MatchStart(s[i..])
    ensures Sanitize(s) == s[..j] + Sanitize(s[j..])
  {
    if j > 0 {
      assert s[0..] == s;
      var t := s[1..];
      assert Sanitize(s) == [s[0]] + Sanitize(t);
      forall i | 0 <= i < j - 1 ensures !MatchStart(t[i..]) {
        assert t[i..] == s[i + 1..];
      }
      SanitizeKeepsUnmatched(t, j - 1);
      assert s[..j] == [s[0]] + t[..j - 1];
      assert t[j - 1..] == s[j..];
    }
  }

  /** The index of the first delimiter, `|s|` when there is none. */
  function FirstDelimiter(s: string): (d: nat)
    ensures d <= |s| && (d < |s| ==> IsDelimiter(s[d]))
    ensures forall i | 0 <= i < d :: !IsDelimiter(s[i])
  {
    if s == [] || IsDelimiter(s[0]) then 0 else 1 + FirstDelimiter(s[1..])
  }

  /** Sanitising does not create or remove a sensitive name at the start. */
  lemma KeyLenSanitize(s: string)
    ensures KeyLen(Sanitize(s)) == KeyLen(s)
  {
    var d := FirstDelimiter(s);
    if d == |s| {
      SanitizeNoDelimiter(s);
    } else {
      SanitizeKeepsHead(s, d + 1);
      KeyLenUpToDelimiter(s, Sanitize(s), d + 1);
    }
  }

  /** Every match that starts before index `n` is masked. */
  predicate MaskedBelow(r: string, n: int) {
    forall i | 0 <= i < n && i < |r| && MatchStart(r[i..]) :: MaskedStart(r[i..])
  }

  /** A masked string stays masked under a prefix that is masked at each of
      its own positions. */
  lemma MaskedConcat(p: string, t: string)
    requires Masked(t) && MaskedBelow(p + t, |p|)
    ensures Masked(p + t)
  {
    var out := p + t;
    forall i | |p| <= i < |out| && MatchStart(out[i..]) ensures MaskedStart(out[i..]) {
      assert out[i..] == t[i - |p|..];
    }
  }

  /** The head written for a match, `?name=***`, is masked at its start,
      provided what follows it starts with `&` or is empty. */
  lemma HeadMaskedAtStart(u: string, t: string)
    requires MatchStart(u)
    requires t == [] || t[0] == '&'
    ensures var out := u[..KeyLen(u[1..]) + 2] + "***" + t;
      MatchStart(out) && MaskedStart(out)
  {
    var k := KeyLen(u[1..]);
    var out := u[..k + 2] + "***" + t;
    assert out[..k + 2] == u[..k + 2];
    assert out[1..][..k + 1] == u[1..][..k + 1] by {
      forall i | 0 <= i < k + 1 ensures out[1..][i] == u[1..][i] {
        assert out[i + 1] == out[..k + 2][i + 1];
      }
    }
    KeyLenFromPrefix(u[1..], out[1..]);
    assert out[k + 2..k + 5] == "***";
    if |out| > k + 5 {
      assert out[k + 5] == t[0];
    }
  }

  /** Inside that head no other match starts: its name, `=` and `***` hold
      no delimiter. */
  lemma HeadHasNoInnerMatch(u: string, t: string, i: int)
    requires MatchStart(u)
    requires 0 < i < KeyLen(u[1..]) + 5 && i < |u[..KeyLen(u[1..]) + 2] + "***" + t|
    ensures !MatchStart((u[..KeyLen(u[1..]) + 2] + "***" + t)[i..])
  {
    var k := KeyLen(u[1..]);
    var out := u[..k + 2] + "***" + t;
    KeyCharsPlain(u[1..]);
    if i < k + 2 {
      assert out[i] == u[1..][i - 1];
    } else {
      assert out[i] == '*';
    }
    assert out[i..][0] == out[i];
  }

  /** The whole head is masked. */
  lemma MatchHeadMasked(u: string, t: string)
    requires MatchStart(u)
    requires t == [] || t[0] == '&'
    ensures MaskedBelow(u[..KeyLen(u[1..]) + 2] + "***" + t, KeyLen(u[1..]) + 5)
  {
    var k := KeyLen(u[1..]);
    var out := u[..k + 2] + "***" + t;
    HeadMaskedAtStart(u, t);
    forall i | 0 < i < k + 5 && i < |out| ensures !MatchStart(out[i..]) {
      HeadHasNoInnerMatch(u, t, i);
    }
    assert out[0..] == out;
  }

  /** Sanitising leaves no sensitive value other than `***`: whatever the
      URL, every `?` or `&` followed by `token=`, `password=` or `secret=`
      (any case) in the result is followed by `***` and then `&` or the
      end. */
  lemma {:induction false} SanitizeMasks(u: string)
    ensures Masked(Sanitize(u))
    decreases |u|
  {
    if u == [] {
    } else if MatchStart(u) {
      var k := KeyLen(u[1..]);
      var rest := u[k + 2..];
      var tail := rest[ValueLen(rest)..];
      var t := Sanitize(tail);
      SanitizeMasks(tail);
      if tail != [] {
        SanitizeKeepsHead(tail, 1);
      }
      MatchHeadMasked(u, t);
      MaskedConcat(u[..k + 2] + "***", t);
    } else {
      var t := Sanitize(u[1..]);
      SanitizeMasks(u[1..]);
      KeyLenSanitize(u[1..]);
      assert !MatchStart([u[0]] + t) by {
        assert ([u[0]] + t)[1..] == t;
      }
      MaskedConcat([u[0]], t);
    }
  }

  /** Every suffix of a masked string is masked. */
  lemma MaskedSuffix(r: string, j: nat)
    requires Masked(r) && j <= |r|
    ensures Masked(r[j..])
  {
    forall i | 0 <= i < |r[j..]| && MatchStart(r[j..][i..]) ensures MaskedStart(r[j..][i..]) {
      assert r[j..][i..] == r[j + i..];
    }
  }

  lemma ValueLenOfMask(s: string)
    requires |s| >= 3 && s[..3] == "***" && (|s| == 3 || s[3] == '&')
    ensures ValueLen(s) == 3
  {
    assert s[0] == '*' && s[1] == '*' && s[2] == '*';
    var s1 := s[1..];
    var s2 := s1[1..];
    var s3 := s2[1..];
    assert s1[0] == '*' && s2[0] == '*';
    assert s3 == [] || s3[0] == '&';
  }

  /** At a match of a masked string the value is `***`, and what follows
      it is masked too. */
  lemma MaskedMatchStep(r: string)
    requires Masked(r) && MatchStart(r)
    ensures var k := KeyLen(r[1..]);
      k + 5 <= |r| && ValueLen(r[k + 2..]) == 3 && r[k + 2..][3..] == r[k + 5..] &&
      Masked(r[k + 5..]) && r == r[..k + 2] + "***" + r[k + 5..]
  {
    assert r[0..] == r;
    var k := KeyLen(r[1..]);
    var rest := r[k + 2..];
    assert MaskedStart(r);
    assert rest[..3] == r[k + 2..k + 5];
    ValueLenOfMask(rest);
    MaskedSuffix(r, k + 5);
    assert r == r[..k + 2] + "***" + r[k + 5..];
  }

  /** A string whose sensitive values are all `***` is left as it is. */
  lemma {:induction false} MaskedFixpoint(r: string)
    requires Masked(r)
    ensures Sanitize(r) == r
    decreases |r|
  {
    if r != [] {
      if MatchStart(r) {
        var k := KeyLen(r[1..]);
        MaskedMatchStep(r);
        MaskedFixpoint(r[k + 5..]);
      } else {
        MaskedSuffix(r, 1);
        MaskedFixpoint(r[1..]);
      }
    }
  }

  /** `sanitizeUrl` is idempotent. */
  lemma SanitizeIdempotent(u: string)
    ensures Sanitize(Sanitize(u)) == Sanitize(u)
  {
    SanitizeMasks(u);
    MaskedFixpoint(Sanitize(u));
  }

  /** A URL without a sensitive parameter, for instance one whose only
      parameter is `access_token`, is left unchanged. */
  lemma NoSensitiveParameterUnchanged(u: string)
    requires forall i | 0 <= i < |u| :: !MatchStart(u[i..])
    ensures Sanitize(u) == u
  {
    MaskedFixpoint(u);
  }

  // ---------------------------------------------------------------------
  // sanitizeUrl on a query string made of parameters
  // ---------------------------------------------------------------------

  /** A query parameter `name=value`. */
  datatype Param = Param(name: string, value: string)

  /** A parameter a query string splits into unambiguously: no `?`, `&` or
      `=` in its name, no `?` or `&` in its value. */
  predicate PlainParam(p: Param) {
    (forall i | 0 <= i < |p.name| :: !IsDelimiter(p.name[i]) && p.name[i] != '=') &&
    (forall i | 0 <= i < |p.value| :: !IsDelimiter(p.value[i]))
  }

  predicate PlainParams(ps: seq<Param>) {
    forall i | 0 <= i < |ps| :: PlainParam(ps[i])
  }

  function Item(p: Param): string {
    p.name + "=" + p.value
  }

  /** `&name=value` for each parameter, in order. */
  function RenderRest(ps: seq<Param>): (r: string)
    ensures r == [] || r[0] == '&'
  {
    if ps == [] then [] else "&" + Item(ps[0]) + RenderRest(ps[1..])
  }

  /** The query string: `?` before the first parameter, `&` before each
      later one. */
  function RenderQuery(ps: seq<Param>): string {
    if ps == [] then [] else "?" + Item(ps[0]) + RenderRest(ps[1..])
  }

  /** The masking intended, parameter by parameter: a sensitive name keeps
      its own spelling and gets the value `***`; any other parameter is left
      as it is. */
  function MaskParam(p: Param): Param {
    if IsSensitiveName(p.name) then Param(p.name, "***") else p
  }

  function MaskParams(ps: seq<Param>): (qs: seq<Param>)
    ensures |qs| == |ps|
  {
    if ps == [] then [] else [MaskParam(ps[0])] + MaskParams(ps[1..])
  }

  /** A name holding `=` is not sensitive. */
  lemma EqBlocksSensitive(t: string, m: nat)
    requires m < |t| && t[m] == '='
    ensures !IsSensitiveName(t)
  {
    assert LowerChar(t[m]) == '=';
  }

  /** The sensitive name at the start of `name=value…` is the parameter's
      own name when that is sensitive, and there is none otherwise. */
  lemma KeyLenOfItem(p: Param, t: string)
    requires PlainParam(p)
    ensures KeyLen(Item(p) + t) == if IsSensitiveName(p.name) then |p.name| else 0
  {
    var s := Item(p) + t;
    var m := |p.name|;
    assert s[..m] == p.name && s[m] == '=';
    if !IsSensitiveName(p.name) {
      forall n: nat ensures !SensitiveKeyAt(s, n) {
        if n < m {
          assert s[n] == p.name[n];
        } else if m < n && n < |s| {
          assert s[..n][m] == '=';
          EqBlocksSensitive(s[..n], m);
        }
      }
    }
  }

  /** `[^&]*` stops at the end of a value without `&`. */
  lemma {:induction false} ValueLenPlain(v: string, t: string)
    requires forall i | 0 <= i < |v| :: !IsDelimiter(v[i])
    requires t == [] || t[0] == '&'
    ensures ValueLen(v + t) == |v|
  {
    if v != [] {
      assert (v + t)[1..] == v[1..] + t;
      ValueLenPlain(v[1..], t);
    }
  }

  /** At a match whose value ends where `t` begins, the value becomes
      `***` and sanitising goes on with `t`. */
  lemma SanitizeAtMatch(u: string, v: string, t: string)
    requires MatchStart(u)
    requires u[KeyLen(u[1..]) + 2..] == v + t
    requires forall i | 0 <= i < |v| :: !IsDelimiter(v[i])
    requires t == [] || t[0] == '&'
    ensures Sanitize(u) == u[..KeyLen(u[1..]) + 2] + "***" + Sanitize(t)
  {
    ValueLenPlain(v, t);
    assert (v + t)[|v|..] == t;
  }

  /** A sensitive parameter: delimiter and name kept, value replaced. */
  lemma SanitizeSensitiveParam(d: char, p: Param, t: string)
    requires IsDelimiter(d) && PlainParam(p) && (t == [] || t[0] == '&')
    requires IsSensitiveName(p.name)
    ensures Sanitize([d] + Item(p) + t) == [d] + Item(Param(p.name, "***")) + Sanitize(t)
  {
    var u := [d] + Item(p) + t;
    var h := [d] + p.name + "=";
    AppendAssoc([d], Item(p), t);
    assert u[1..] == Item(p) + t;
    AppendAssoc([d], p.name, "=");
    AppendAssoc([d], p.name + "=", p.value);
    AppendAssoc(h, p.value, t);
    assert u == h + (p.value + t);
    assert u[..|h|] == h && u[|h|..] == p.value + t;
    KeyLenOfItem(p, t);
    assert MatchStart(u);
    SanitizeAtMatch(u, p.value, t);
    AppendAssoc([d], p.name + "=", "***");
  }

  lemma AppendAssoc(a: string, b: string, c: string)
    ensures a + b + c == a + (b + c)
  {
  }

  /** Any other parameter is kept as it is. */
  lemma SanitizePlainParam(d: char, p: Param, t: string)
    requires IsDelimiter(d) && PlainParam(p)
    requires !IsSensitiveName(p.name)
    ensures Sanitize([d] + Item(p) + t) == [d] + Item(p) + Sanitize(t)
  {
    var u := [d] + Item(p) + t;
    assert u[1..] == Item(p) + t;
    KeyLenOfItem(p, t);
    var j := 1 + |Item(p)|;
    forall i | 0 <= i < j ensures !MatchStart(u[i..]) {
      if i == 0 {
        assert u[0..] == u;
      } else {
        assert u[i..][0] == Item(p)[i - 1];
      }
    }
    SanitizeKeepsUnmatched(u, j);
    assert u[..j] == [d] + Item(p);
    assert u[j..] == t;
  }

  /** One parameter after its delimiter: it becomes its masked form, and
      the rest is sanitised on its own. */
  lemma SanitizeParam(d: char, p: Param, t: string)
    requires IsDelimiter(d) && PlainParam(p) && (t == [] || t[0] == '&')
    ensures Sanitize([d] + Item(p) + t) == [d] + Item(MaskParam(p)) + Sanitize(t)
  {
    var u := [d] + Item(p) + t;
    var r := Sanitize(t);
    var q := MaskParam(p);
    if IsSensitiveName(p.name) {
      SanitizeSensitiveParam(d, p, t);
    } else {
      SanitizePlainParam(d, p, t);
      assert q == p;
      assert Sanitize(u) == [d] + Item(q) + r;
    }
  }

  lemma {:induction false} SanitizeRest(ps: seq<Param>)
    requires PlainParams(ps)
    ensures Sanitize(RenderRest(ps)) == RenderRest(MaskParams(ps))
  {
    if ps != [] {
      assert PlainParam(ps[0]);
      assert PlainParams(ps[1..]) by {
        forall i | 0 <= i < |ps| - 1 ensures PlainParam(ps[1..][i]) {
          assert ps[1..][i] == ps[i + 1];
        }
      }
      SanitizeRest(ps[1..]);
      SanitizeParam('&', ps[0], RenderRest(ps[1..]));
    }
  }

  /** What `sanitizeUrl` does to a path followed by a query string of plain
      parameters: the path, every delimiter, every name and every value of
      a parameter that is not sensitive are kept, and the value of each
      sensitive parameter is replaced by `***`. */
  lemma SanitizeQuery(head: string, ps: seq<Param>)
    requires forall i | 0 <= i < |head| :: !IsDelimiter(head[i])
    requires PlainParams(ps)
    ensures Sanitize(head + RenderQuery(ps)) == head + RenderQuery(MaskParams(ps))
  {
    var u := head + RenderQuery(ps);
    forall i | 0 <= i < |head| ensures !MatchStart(u[i..]) {
      assert u[i..][0] == head[i];
    }
    SanitizeKeepsUnmatched(u, |head|);
    assert u[..|head|] == head && u[|head|..] == RenderQuery(ps);
    if ps != [] {
      assert PlainParam(ps[0]);
      assert PlainParams(ps[1..]) by {
        forall i | 0 <= i < |ps| - 1 ensures PlainParam(ps[1..][i]) {
          assert ps[1..][i] == ps[i + 1];
        }
      }
      SanitizeRest(ps[1..]);
      SanitizeParam('?', ps[0], RenderRest(ps[1..]));
    }
  }

  /** The query of the example below, before and after masking. */
  const ExampleQuery := [Param("access_token", "abc"), Param("Token", "xyz"), Param("page", "2")]
  const ExampleMasked := [Param("access_token", "abc"), Param("Token", "***"), Param("page", "2")]

  lemma ExampleAccessTokenPlain()
    ensures PlainParam(Param("access_token", "abc"))
  {
  }

  lemma ExampleTokenPlain()
    ensures PlainParam(Param("Token", "xyz"))
  {
  }

  lemma ExamplePagePlain()
    ensures PlainParam(Param("page", "2"))
  {
  }

  lemma ExampleQueryPlain()
    ensures PlainParams(ExampleQuery)
  {
    ExampleAccessTokenPlain();
    ExampleTokenPlain();
    ExamplePagePlain();
  }

  lemma ExampleQueryMasks()
    ensures MaskParams(ExampleQuery) == ExampleMasked
  {
    assert !IsSensitiveName("access_token");
    assert LowerEq("Token", "token");
    assert !IsSensitiveName("page");
    assert MaskParams(ExampleQuery[2..]) == ExampleMasked[2..];
    assert MaskParams(ExampleQuery[1..]) == ExampleMasked[1..];
  }

  /** `access_token` is not one of the sensitive names, `Token` is: in
      `/login?access_token=abc&Token=xyz&page=2` only the value of `Token`
      is masked, its capital letter survives, and the parameters around it
      are kept. */
  lemma AccessTokenExample()
    ensures Sanitize("/login" + RenderQuery(ExampleQuery)) == "/login" + RenderQuery(ExampleMasked)
  {
    ExampleQueryPlain();
    ExampleQueryMasks();
    assert forall i | 0 <= i < |"/login"| :: !IsDelimiter("/login"[i]);
    SanitizeQuery("/login", ExampleQuery);
  }

  // ---------------------------------------------------------------------
  // catch: status, message, stack and log level
  // ---------------------------------------------------------------------

  /** A JSON value, as an exception's response or a response body field. */
  datatype Json =
    | JString(str: string)
    | JNumber(num: int)
    | JBool(b: bool)
    | JNull
    | JArray(items: seq<Json>)
    | JObject(fields: map<string, Json>)

  /** What reaches the filter: an `HttpException` (status, response, stack),
      any other `Error` (stack), or a thrown value that is not an `Error`. */
  datatype Exception =
    | HttpException(status: int, response: Json, stack: string)
    | OtherError(stack: string)
    | NotAnError(thrown: Json)

  /** `exception instanceof Error`. */
  predicate IsErrorInstance(e: Exception) {
    e.HttpException? || e.OtherError?
  }

  /** `typeof m === 'object'` (which holds for `null` too). */
  predicate IsObject(m: Json) {
    m.JNull? || m.JArray? || m.JObject?
  }

  const GenericMessage := "Error interno del servidor"

  /** The response body: status, sanitised path, message, optional stack. */
  datatype ErrorResponse = ErrorResponse(
    statusCode: int,
    path: string,
    message: Json,
    stack: Option<string>)

  datatype LogLevel = ErrorLevel | UnauthorizedWarning | PlainWarning

  /** The status: the `HttpException`'s own, 500 for anything else. */
  function StatusOf(e: Exception): (s: int)
    ensures !e.HttpException? ==> s == 500
    ensures e.HttpException? ==> s == e.status
  {
    if e.HttpException? then e.status else 500
  }

  /** The message: the `HttpException`'s response, the generic text for
      anything else. */
  function MessageOf(e: Exception): (m: Json)
    ensures !e.HttpException? ==> m == JString(GenericMessage)
    ensures e.HttpException? ==> m == e.response
  {
    if e.HttpException? then e.response else JString(GenericMessage)
  }

  /** `typeof message === 'object' ? message : { message }`. */
  function BodyMessage(m: Json): (r: Json)
    ensures IsObject(r)
    ensures IsObject(m) ==> r == m
    ensures !IsObject(m) ==> r == JObject(map["message" := m])
  {
    if IsObject(m) then m else JObject(map["message" := m])
  }

  /** `catch`: the body sent to the client. */
  function Respond(e: Exception, url: string, nodeEnv: string): ErrorResponse {
    ErrorResponse(
      StatusOf(e),
      Sanitize(url),
      BodyMessage(MessageOf(e)),
      if nodeEnv == "development" && IsErrorInstance(e) then Some(e.stack) else None)
  }

  /** The log level of a status. */
  function LevelOf(status: int): (l: LogLevel)
    ensures l == ErrorLevel <==> status >= 500
    ensures l == UnauthorizedWarning <==> status == 401 || status == 403
    ensures l == PlainWarning <==> status < 500 && status != 401 && status != 403
  {
    if status >= 500 then ErrorLevel
    else if status == 401 || status == 403 then UnauthorizedWarning
    else PlainWarning
  }

  /** What every answer satisfies: its message is an object, its path has
      every sensitive value masked, and a stack trace appears exactly in
      development for an `Error`, where it is the exception's own. */
  lemma ResponseShape(e: Exception, url: string, nodeEnv: string)
    ensures var r := Respond(e, url, nodeEnv);
      IsObject(r.message) && Masked(r.path) &&
      (r.stack.Some? <==> nodeEnv == "development" && IsErrorInstance(e)) &&
      (r.stack.Some? ==> r.stack.value == e.stack)
  {
    SanitizeMasks(url);
  }

  /** Anything that is not an `HttpException` is answered with 500 and the
      generic message, logged as an error, and nothing else about it is
      sent. */
  lemma NonHttpAnswer(e: Exception, url: string, nodeEnv: string)
    requires !e.HttpException?
    ensures var r := Respond(e, url, nodeEnv);
      r.statusCode == 500 &&
      r.message == JObject(map["message" := JString(GenericMessage)]) &&
      LevelOf(r.statusCode) == ErrorLevel
  {
  }

  /** An `HttpException` whose response is a string is answered with that
      string wrapped as `{ message }`, under its own status. */
  lemma HttpStringAnswer(status: int, text: string, stack: string, url: string, nodeEnv: string)
    ensures var r := Respond(HttpException(status, JString(text), stack), url, nodeEnv);
      r.statusCode == status && r.message == JObject(map["message" := JString(text)])
  {
  }

  /** The exception `HandleServiceError` and the forms service throw: an
      `RpcException` carrying the normalised error. It is an `Error`, not an
      `HttpException`, so the filter sees only its stack. */
  function RpcExceptionOf(err: ServiceErrors.RpcError, stack: string): (e: Exception)
    ensures IsErrorInstance(e) && !e.HttpException?
  {
    OtherError(stack)
  }

  /** An error thrown by a forms service operation is an `RpcException`,
      which is an `Error` but not an `HttpException`: whatever message and
      status the service put in it, the client gets 500 and the generic
      message, and the failure is logged at error level. */
  lemma ServiceFailureAnswer(err: ServiceErrors.RpcError, other: ServiceErrors.RpcError, stack: string, url: string, nodeEnv: string)
    ensures var r := Respond(RpcExceptionOf(err, stack), url, nodeEnv);
      r.statusCode == 500 && r.message == JObject(map["message" := JString(GenericMessage)]) &&
      LevelOf(r.statusCode) == ErrorLevel &&
      r == Respond(RpcExceptionOf(other, stack), url, nodeEnv)
  {
  }
}
