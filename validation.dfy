/**
 The validation rules of one form field and what each of them demands of the
 field's value (ContactData.js, `checkValidity`).

 A value is a JavaScript string, modelled as a sequence of characters. For
 text in the Basic Multilingual Plane, which is all the patterns and `trim`
 look at, one character is one UTF-16 code unit, so `|value|` is the
 string's `length`.
 */
module Validation {
  import opened EmailPattern

  datatype Option<T> = None | Some(value: T)

  /** The `validation` record of a field. A length limit of 0 stands for a
      limit that is absent: the source only tests a limit that is truthy. */
  datatype Rules = Rules(required: bool, minLength: nat, maxLength: nat, isEmail: bool, isNumeric: bool)

  /** The record `{}`: present, but without any rule. */
  const NoRules := Rules(false, 0, 0, false, false)

  // ---------------------------------------------------------------------------
  // `String.prototype.trim`
  // ---------------------------------------------------------------------------

  /** The code units that `trim` removes: the WhiteSpace and LineTerminator
      code points of the ECMAScript grammar. */
  predicate IsWhitespace(c: char) {
    c in {'\t', '\n', '\U{000B}', '\U{000C}', '\r', ' ', '\U{00A0}', '\U{1680}',
          '\U{2028}', '\U{2029}', '\U{202F}', '\U{205F}', '\U{3000}', '\U{FEFF}'} ||
    ('\U{2000}' <= c <= '\U{200A}')
  }

  /** `s` without its leading white space. */
  function TrimStart(s: string): (r: string)
    ensures |r| <= |s| && r == s[|s| - |r|..]
    ensures forall k :: 0 <= k < |s| - |r| ==> IsWhitespace(s[k])
    ensures r == [] || !IsWhitespace(r[0])
  {
    if s != [] && IsWhitespace(s[0]) then TrimStart(s[1..]) else s
  }

  /** `s` without its trailing white space. */
  function TrimEnd(s: string): (r: string)
    ensures |r| <= |s| && r == s[..|r|]
    ensures forall k :: |r| <= k < |s| ==> IsWhitespace(s[k])
    ensures r == [] || !IsWhitespace(r[|r| - 1])
  {
    if s != [] && IsWhitespace(s[|s| - 1]) then TrimEnd(s[..|s| - 1]) else s
  }

  /** `s.trim()` */
  function Trim(s: string): string {
    TrimEnd(TrimStart(s))
  }

  /** Trimming leaves nothing exactly when every code unit is white space;
      so `required` fails on "" and on "  " and passes on "x". */
  lemma TrimEmptyIffBlank(s: string)
    ensures Trim(s) == [] <==> forall k :: 0 <= k < |s| ==> IsWhitespace(s[k])
  {
    var t := TrimStart(s);
    if Trim(s) == [] {
      forall k | 0 <= k < |s|
        ensures IsWhitespace(s[k])
      {
        if k >= |s| - |t| {
          assert s[k] == t[k - (|s| - |t|)];
        }
      }
    } else {
      var r := Trim(s);
      assert r[0] == t[0];
      assert t[0] == s[|s| - |t|];
    }
  }

  /** What trimming keeps is the value itself when it has no white space at
      either end. */
  lemma TrimKeepsUnpadded(s: string)
    requires s != [] && !IsWhitespace(s[0]) && !IsWhitespace(s[|s| - 1])
    ensures Trim(s) == s
  {
  }

  // ---------------------------------------------------------------------------
  // `/^\d+$/`
  // ---------------------------------------------------------------------------

  /** `\d` without the `u` flag: an ASCII decimal digit. */
  predicate IsDigit(c: char) {
    '0' <= c <= '9'
  }

  /** The anchored expression `^\d+$` matches `s`. Without the `m` flag `$`
      matches only at the end of the input, so the whole value is digits. */
  predicate IsNumeric(s: string) {
    |s| > 0 && forall k :: 0 <= k < |s| ==> IsDigit(s[k])
  }

  /** `\d+` read as a grammar: a digit, followed by `\d+` or by nothing. */
  ghost predicate Digits(w: string)
    decreases |w|
  {
    |w| > 0 && IsDigit(w[0]) && (|w| == 1 || Digits(w[1..]))
  }

  lemma {:induction false} IsNumericIsDigits(s: string)
    ensures IsNumeric(s) <==> Digits(s)
    decreases |s|
  {
    if |s| > 1 {
      IsNumericIsDigits(s[1..]);
      if Digits(s) {
        forall k | 0 <= k < |s|
          ensures IsDigit(s[k])
        {
          if k > 0 {
            assert s[k] == s[1..][k - 1];
          }
        }
      }
    }
  }

  // ---------------------------------------------------------------------------
  // `checkValidity`
  // ---------------------------------------------------------------------------

  /** One test of `checkValidity`. */
  datatype RuleCheck = Required | MinLength(min: nat) | MaxLength(max: nat) | IsEmail | IsNumber

  /** Whether `value` passes one test, as the source computes it. */
  predicate Holds(value: string, c: RuleCheck) {
    match c
    case Required => Trim(value) != []
    case MinLength(n) => |value| >= n
    case MaxLength(n) => |value| <= n
    case IsEmail => ContainsEmail(value)
    case IsNumber => IsNumeric(value)
  }

  /** The tests that `rules` switches on, in the order the source runs them.
      Absent rules, and a limit of 0, switch nothing on. */
  function Checks(rules: Option<Rules>): seq<RuleCheck> {
    match rules
    case None => []
    case Some(r) =>
      (if r.required then [Required] else []) +
      (if r.minLength > 0 then [MinLength(r.minLength)] else []) +
      (if r.maxLength > 0 then [MaxLength(r.maxLength)] else []) +
      (if r.isEmail then [IsEmail] else []) +
      (if r.isNumeric then [IsNumber] else [])
  }

  /** `value` passes every test of `cs`. */
  predicate AllHold(value: string, cs: seq<RuleCheck>) {
    forall c :: c in cs ==> Holds(value, c)
  }

  lemma AllHoldAppend(value: string, a: seq<RuleCheck>, b: seq<RuleCheck>)
    ensures AllHold(value, a + b) <==> AllHold(value, a) && AllHold(value, b)
  {
    assert forall c :: c in a + b <==> c in a || c in b;
  }

  /** The value is valid under `rules`: it passes the test of every rule
      that is present. */
  predicate Satisfies(value: string, rules: Option<Rules>) {
    match rules
    case None => true
    case Some(r) =>
      (r.required ==> Holds(value, Required)) &&
      (r.minLength > 0 ==> Holds(value, MinLength(r.minLength))) &&
      (r.maxLength > 0 ==> Holds(value, MaxLength(r.maxLength))) &&
      (r.isEmail ==> Holds(value, IsEmail)) &&
      (r.isNumeric ==> Holds(value, IsNumber))
  }

  /** Being valid is passing every test in the list of tests that `rules`
      switches on. */
  lemma SatisfiesIsAllChecks(value: string, rules: Option<Rules>)
    ensures Satisfies(value, rules) <==> AllHold(value, Checks(rules))
  {
    if rules.Some? {
      var r := rules.value;
      var cs := Checks(rules);
      var c1 := if r.required then [Required] else [];
      var c2 := if r.minLength > 0 then [MinLength(r.minLength)] else [];
      var c3 := if r.maxLength > 0 then [MaxLength(r.maxLength)] else [];
      var c4 := if r.isEmail then [IsEmail] else [];
      var c5 := if r.isNumeric then [IsNumber] else [];
      assert cs == c1 + c2 + c3 + c4 + c5;
      AllHoldAppend(value, c1 + c2 + c3 + c4, c5);
      AllHoldAppend(value, c1 + c2 + c3, c4);
      AllHoldAppend(value, c1 + c2, c3);
      AllHoldAppend(value, c1, c2);
      assert AllHold(value, c1) <==> (r.required ==> Holds(value, Required));
      assert AllHold(value, c2) <==> (r.minLength > 0 ==> Holds(value, MinLength(r.minLength)));
      assert AllHold(value, c3) <==> (r.maxLength > 0 ==> Holds(value, MaxLength(r.maxLength)));
      assert AllHold(value, c4) <==> (r.isEmail ==> Holds(value, IsEmail));
      assert AllHold(value, c5) <==> (r.isNumeric ==> Holds(value, IsNumber));
    }
  }

  /** The reassignment chain `isValid = <test> && isValid`, run over the
      tests `cs` in the given order, starting from `isValid`. */
  function RunChecks(value: string, cs: seq<RuleCheck>, isValid: bool): bool
    decreases |cs|
  {
    if cs == [] then isValid else RunChecks(value, cs[1..], Holds(value, cs[0]) && isValid)
  }

  /** The chain computes the conjunction of the tests it runs. */
  lemma {:induction false} RunChecksIsConjunction(value: string, cs: seq<RuleCheck>, isValid: bool)
    ensures RunChecks(value, cs, isValid) <==> isValid && forall c :: c in cs ==> Holds(value, c)
    decreases |cs|
  {
    if cs != [] {
      RunChecksIsConjunction(value, cs[1..], Holds(value, cs[0]) && isValid);
      assert forall c :: c in cs <==> c == cs[0] || c in cs[1..];
    }
  }

  /** Running the tests that `rules` switches on in any order, starting from
      `true`, gives the same verdict: the order the source uses does not
      matter. */
  lemma RunChecksOrderFree(value: string, rules: Option<Rules>, order: seq<RuleCheck>)
    requires multiset(order) == multiset(Checks(rules))
    ensures RunChecks(value, order, true) == Satisfies(value, rules)
  {
    RunChecksIsConjunction(value, order, true);
    SatisfiesIsAllChecks(value, rules);
    forall c
      ensures c in order <==> c in Checks(rules)
    {
      assert c in order <==> c in multiset(order);
      assert c in Checks(rules) <==> c in multiset(Checks(rules));
    }
  }

  /** What validity under `rules` means, rule by rule, each rule stated
      independently of how the source tests it: `required` asks for a code
      unit that is not white space, the limits bound the length when they are
      not 0, `isEmail` is the unanchored expression's `test`, `isNumeric` is
      `^\d+$`. With no record, or with `{}`, every value is valid. */
  lemma SatisfiesMeaning(value: string, rules: Option<Rules>)
    ensures Satisfies(value, rules) <==>
      rules.None? ||
      ((rules.value.required ==> exists k :: 0 <= k < |value| && !IsWhitespace(value[k])) &&
       (rules.value.minLength > 0 ==> |value| >= rules.value.minLength) &&
       (rules.value.maxLength > 0 ==> |value| <= rules.value.maxLength) &&
       (rules.value.isEmail ==> PatternTest(value)) &&
       (rules.value.isNumeric ==> Digits(value)))
  {
    TrimEmptyIffBlank(value);
    ContainsEmailIsPatternTest(value);
    IsNumericIsDigits(value);
  }

  /** `{}`, the rules of the delivery method, accepts every value. */
  lemma NoRulesAlwaysValid(value: string)
    ensures Satisfies(value, Some(NoRules)) && Satisfies(value, None)
  {
  }

  /** The zip code rules: required, numeric and exactly six long. */
  const ZipRules := Rules(true, 6, 6, false, true)

  /** The zip code rules accept exactly the values of six digits: a value of
      digits is never blank, so `required` adds nothing. */
  lemma ZipRulesMeaning(value: string)
    ensures Satisfies(value, Some(ZipRules)) <==> |value| == 6 && IsNumeric(value)
  {
    TrimEmptyIffBlank(value);
    if IsNumeric(value) {
      assert !IsWhitespace(value[0]);
    }
  }

  lemma ZipAcceptsSixDigits()
    ensures Satisfies("123456", Some(ZipRules))
  {
    ZipRulesMeaning("123456");
  }

  lemma ZipRejectsLetter()
    ensures !Satisfies("12a456", Some(ZipRules))
  {
    ZipRulesMeaning("12a456");
    assert !IsDigit("12a456"[2]);
  }

  lemma ZipRejectsShort()
    ensures !Satisfies("12345", Some(ZipRules))
  {
    ZipRulesMeaning("12345");
  }

  /** The zip code examples: six digits pass, a letter or a missing digit
      fails. */
  lemma ZipCodeExamples()
    ensures Satisfies("123456", Some(ZipRules))
    ensures !Satisfies("12a456", Some(ZipRules))
    ensures !Satisfies("12345", Some(ZipRules))
  {
    ZipAcceptsSixDigits();
    ZipRejectsLetter();
    ZipRejectsShort();
  }

  /** `isNumeric` alone: digits pass, a value with letters fails. */
  lemma NumericExamples()
    ensures !Satisfies("abc123", Some(NoRules.(isNumeric := true)))
    ensures Satisfies("123456", Some(NoRules.(isNumeric := true)))
  {
    assert !IsDigit("abc123"[0]);
  }

  /** `minLength` alone: a value of exactly the limit passes, one shorter
      fails. */
  lemma MinLengthBoundary(value: string, n: nat)
    requires n > 0
    ensures Satisfies(value, Some(NoRules.(minLength := n))) <==> |value| >= n
    ensures |value| == n ==> Satisfies(value, Some(NoRules.(minLength := n)))
  {
  }

  /** A limit of 0 is skipped: `maxLength: 0` is as lenient as any upper
      limit the value meets, and `minLength: 0` as any lower limit it meets. */
  lemma ZeroLimitIsNoLimit(value: string, r: Rules)
    ensures forall m: nat :: m >= |value| ==>
      (Satisfies(value, Some(r.(maxLength := 0))) <==> Satisfies(value, Some(r.(maxLength := m))))
    ensures forall n: nat :: n <= |value| ==>
      (Satisfies(value, Some(r.(minLength := 0))) <==> Satisfies(value, Some(r.(minLength := n))))
  {
  }

  lemma RequiredExamples()
    ensures !Satisfies("", Some(NoRules.(required := true)))
    ensures !Satisfies("  ", Some(NoRules.(required := true)))
    ensures Satisfies("x", Some(NoRules.(required := true)))
  {
  }
}
