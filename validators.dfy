/** The web client's form validators. Each returns either `true` or its
    error message; a JavaScript value of type `boolean | string` is an
    `Outcome` here. */
module Validators {
  import opened Decimal

  datatype Outcome = BoolValue(b: bool) | Message(text: string)

  /** The JavaScript values `required` can be given. */
  datatype JsValue = Null | Undefined | Str(s: string) | Num(n: int) | Bool(b: bool) | Object

  const RequiredMessage: string := "This field is required"
  const EmailMessage: string := "Must be a valid email address"
  const SkuMessage: string := "SKU can only contain uppercase letters, numbers, and hyphens"

  function MinLengthMessage(min: int): string {
    "Must be at least " + IntToString(min) + " characters"
  }

  function MaxLengthMessage(max: int): string {
    "Must be less than " + IntToString(max) + " characters"
  }

  /** `String.prototype.length`: UTF-16 code units, two for a character
      outside the Basic Multilingual Plane. */
  function Utf16Length(s: string): (n: nat)
    ensures |s| <= n <= 2 * |s|
    decreases |s|
  {
    if s == [] then 0 else (if s[0] as int > 0xFFFF then 2 else 1) + Utf16Length(s[1..])
  }

  /** Over the Basic Multilingual Plane, `length` counts characters. */
  lemma {:induction false} Utf16LengthOfBmp(s: string)
    requires forall i :: 0 <= i < |s| ==> s[i] as int <= 0xFFFF
    ensures Utf16Length(s) == |s|
    decreases |s|
  {
    if s != [] {
      Utf16LengthOfBmp(s[1..]);
    }
  }

  // ---------------------------------------------------------------------------
  // required
  // ---------------------------------------------------------------------------

  /** `required`: strict comparisons with null, undefined and the empty
      string, so 0, false and the string "0" pass. */
  function Required(value: JsValue): (r: Outcome)
    ensures r == Message(RequiredMessage) <==> value in {Null, Undefined, Str("")}
    ensures r.BoolValue? <==> value !in {Null, Undefined, Str("")}
    ensures r.BoolValue? ==> r.b
  {
    if value == Null || value == Undefined || value == Str("") then Message(RequiredMessage)
    else BoolValue(true)
  }

  /** Falsy values other than the three are accepted. */
  lemma RequiredAcceptsFalsy()
    ensures Required(Num(0)) == BoolValue(true)
    ensures Required(Bool(false)) == BoolValue(true)
    ensures Required(Str("0")) == BoolValue(true)
  {
    assert Str("0") != Str("") by {
      assert |"0"| == 1;
    }
  }

  // ---------------------------------------------------------------------------
  // minLength / maxLength: a closure over the bound, applied to the value
  // ---------------------------------------------------------------------------

  function MinLength(min: int, value: string): (r: Outcome)
    ensures r.Message? <==> Utf16Length(value) < min
    ensures r.Message? ==> r.text == MinLengthMessage(min)
    ensures r.BoolValue? ==> r.b
  {
    if Utf16Length(value) < min then Message(MinLengthMessage(min)) else BoolValue(true)
  }

  function MaxLength(max: int, value: string): (r: Outcome)
    ensures r.Message? <==> Utf16Length(value) > max
    ensures r.Message? ==> r.text == MaxLengthMessage(max)
    ensures r.BoolValue? ==> r.b
  {
    if Utf16Length(value) > max then Message(MaxLengthMessage(max)) else BoolValue(true)
  }

  /** "Must be less than N characters" notwithstanding, a value of exactly N
      passes `maxLength(N)`; only a longer one fails. */
  lemma MaxLengthAcceptsBound(max: int, value: string)
    requires Utf16Length(value) == max
    ensures MaxLength(max, value) == BoolValue(true)
    ensures MaxLength(max - 1, value) == Message(MaxLengthMessage(max - 1))
  {
  }

  /** The message names the bound: different bounds give different texts. */
  lemma {:induction false} LengthMessagesNameBound(m: int, n: int)
    ensures MinLengthMessage(m) == MinLengthMessage(n) ==> m == n
    ensures MaxLengthMessage(m) == MaxLengthMessage(n) ==> m == n
  {
    var pre, post := "Must be at least ", " characters";
    if MinLengthMessage(m) == MinLengthMessage(n) {
      var a, b := MinLengthMessage(m), MinLengthMessage(n);
      assert |IntToString(m)| == |IntToString(n)|;
      assert IntToString(m) == a[|pre|..|a| - |post|];
      assert IntToString(n) == b[|pre|..|b| - |post|];
      IntToStringInjective(m, n);
    }
    var pre' := "Must be less than ";
    if MaxLengthMessage(m) == MaxLengthMessage(n) {
      var a, b := MaxLengthMessage(m), MaxLengthMessage(n);
      assert |IntToString(m)| == |IntToString(n)|;
      assert IntToString(m) == a[|pre'|..|a| - |post|];
      assert IntToString(n) == b[|pre'|..|b| - |post|];
      IntToStringInjective(m, n);
    }
  }

  /** Both validators on one field accept exactly the lengths in [min, max]. */
  lemma LengthRange(min: int, max: int, value: string)
    ensures (MinLength(min, value).BoolValue? && MaxLength(max, value).BoolValue?) <==>
      min <= Utf16Length(value) <= max
  {
  }

  // ---------------------------------------------------------------------------
  // email: /^[^\s@]+@[^\s@]+\.[^\s@]+$/
  // ---------------------------------------------------------------------------

  /** The characters of `\s` in a JavaScript regular expression: white space
      and line terminators. */
  predicate IsJsSpace(c: char) {
    var k := c as int;
    k == 0x09 || k == 0x0A || k == 0x0B || k == 0x0C || k == 0x0D || k == 0x20 || k == 0xA0 ||
    k == 0x1680 || (0x2000 <= k <= 0x200A) || k == 0x2028 || k == 0x2029 || k == 0x202F ||
    k == 0x205F || k == 0x3000 || k == 0xFEFF
  }

  /** `[^\s@]`. */
  predicate PartChar(c: char) {
    !IsJsSpace(c) && c != '@'
  }

  predicate AllPart(s: string) {
    forall i :: 0 <= i < |s| ==> PartChar(s[i])
  }

  /** The pattern as the regular expression reads: three non-empty runs of
      `[^\s@]`, joined by '@' and by '.'. */
  ghost predicate MatchesEmailPattern(s: string) {
    exists local, domain, top ::
      AllPart(local) && AllPart(domain) && AllPart(top) &&
      |local| > 0 && |domain| > 0 && |top| > 0 &&
      s == local + "@" + domain + "." + top
  }

  /** The same condition as a list of checks: no white space; exactly one
      '@', not at the start; after it, a '.' with text on both sides. */
  predicate EmailShape(s: string) {
    && (forall i | 0 <= i < |s| :: !IsJsSpace(s[i]))
    && exists a | 0 < a < |s| ::
         && s[a] == '@'
         && (forall i | 0 <= i < |s| && s[i] == '@' :: i == a)
         && (exists d | a + 1 < d < |s| - 1 :: s[d] == '.')
  }

  function Email(value: string): (r: Outcome)
    ensures r.Message? ==> r.text == EmailMessage
    ensures r.BoolValue? ==> r.b
  {
    if EmailShape(value) then BoolValue(true) else Message(EmailMessage)
  }

  /** `email` accepts exactly the strings the regular expression matches. */
  lemma EmailIsPattern(s: string)
    ensures Email(s) == BoolValue(true) <==> MatchesEmailPattern(s)
  {
    if EmailShape(s) {
      ShapeMatches(s);
    }
    if MatchesEmailPattern(s) {
      PatternHasShape(s);
    }
  }

  lemma ShapeMatches(s: string)
    requires EmailShape(s)
    ensures MatchesEmailPattern(s)
  {
    var a :| 0 < a < |s| && s[a] == '@' && (forall i | 0 <= i < |s| && s[i] == '@' :: i == a) &&
             (exists d | a + 1 < d < |s| - 1 :: s[d] == '.');
    var d :| a + 1 < d < |s| - 1 && s[d] == '.';
    var local, domain, top := s[..a], s[a + 1..d], s[d + 1..];
    assert s == local + "@" + domain + "." + top;
    assert AllPart(local) by {
      forall i | 0 <= i < |local| ensures PartChar(local[i]) {
        assert local[i] == s[i];
      }
    }
    assert AllPart(domain) by {
      forall i | 0 <= i < |domain| ensures PartChar(domain[i]) {
        assert domain[i] == s[a + 1 + i];
      }
    }
    assert AllPart(top) by {
      forall i | 0 <= i < |top| ensures PartChar(top[i]) {
        assert top[i] == s[d + 1 + i];
      }
    }
  }

  lemma PatternHasShape(s: string)
    requires MatchesEmailPattern(s)
    ensures EmailShape(s)
  {
    var local, domain, top :| AllPart(local) && AllPart(domain) && AllPart(top) &&
      |local| > 0 && |domain| > 0 && |top| > 0 && s == local + "@" + domain + "." + top;
    var a, d := |local|, |local| + 1 + |domain|;
    assert s[a] == '@' && s[d] == '.';
    forall i | 0 <= i < |s| ensures PartChar(s[i]) || i == a || i == d {
      if i < a {
        assert s[i] == local[i];
      } else if a < i < d {
        assert s[i] == domain[i - a - 1];
      } else if d < i {
        assert s[i] == top[i - d - 1];
      }
    }
    assert forall i | 0 <= i < |s| && s[i] == '@' :: i == a;
  }

  /** Two '@' are never accepted. */
  lemma EmailRejectsTwoAts(s: string, i: nat, j: nat)
    requires i < j < |s| && s[i] == '@' && s[j] == '@'
    ensures Email(s) == Message(EmailMessage)
  {
  }

  // ---------------------------------------------------------------------------
  // skuValidator: /^[A-Z0-9-]+$/
  // ---------------------------------------------------------------------------

  predicate SkuChar(c: char) {
    'A' <= c <= 'Z' || '0' <= c <= '9' || c == '-'
  }

  /** `[A-Z0-9-]+` read as a grammar: one such character, then possibly more. */
  ghost predicate SkuRun(s: string)
    decreases |s|
  {
    |s| > 0 && SkuChar(s[0]) && (|s| == 1 || SkuRun(s[1..]))
  }

  function Sku(value: string): (r: Outcome)
    ensures r.Message? ==> r.text == SkuMessage
    ensures r.BoolValue? ==> r.b
  {
    if |value| > 0 && forall i | 0 <= i < |value| :: SkuChar(value[i]) then BoolValue(true)
    else Message(SkuMessage)
  }

  /** `skuValidator` accepts exactly the strings the regular expression matches. */
  lemma {:induction false} SkuIsPattern(s: string)
    ensures Sku(s) == BoolValue(true) <==> SkuRun(s)
    decreases |s|
  {
    if |s| > 1 {
      SkuIsPattern(s[1..]);
      assert forall i | 1 <= i < |s| :: s[i] == s[1..][i - 1];
    }
  }

  /** A lower-case letter anywhere rejects the SKU. */
  lemma SkuRejectsLowercase(s: string, i: nat)
    requires i < |s| && 'a' <= s[i] <= 'z'
    ensures Sku(s) == Message(SkuMessage)
  {
  }

  /** No validator ever answers `false`. */
  lemma NeverFalse(v: JsValue, bound: int, s: string)
    ensures Required(v) != BoolValue(false)
    ensures MinLength(bound, s) != BoolValue(false) && MaxLength(bound, s) != BoolValue(false)
    ensures Email(s) != BoolValue(false) && Sku(s) != BoolValue(false)
  {
  }
}
