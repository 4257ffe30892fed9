/**
 The `isEmail` rule of the checkout form tests the value against the regular
 expression

   [L]+(?:\.[L]+)*@(?:[D](?:[D-]*[D])?\.)+[D](?:[D-]*[D])?

 where L is the class a-z, 0-9 and !#$%&'*+/=?^_`{|}~- and D is a-z, 0-9.
 The expression has no anchors and no `i` flag, so `test` succeeds exactly when
 some substring of the value belongs to the language of the expression, and
 only lower-case letters are accepted.

 This module gives two definitions of that test and proves them equal:
 - `PatternTest`, a ghost definition that follows the expression's structure
   (one predicate per group) and quantifies over every substring;
 - `ContainsEmail`, a direct matcher: some character of the local class is
   followed by '@', a domain label, '.', and one more domain character.
 */
module EmailPattern {

  /** The local-part class `[a-z0-9!#$%&'*+/=?^_`{|}~-]`. */
  predicate IsLocalChar(c: char) {
    ('a' <= c <= 'z') || ('0' <= c <= '9') ||
    c in {'!', '#', '$', '%', '&', '\'', '*', '+', '/', '=', '?', '^', '_', '`', '{', '|', '}', '~', '-'}
  }

  /** The domain class `[a-z0-9]`. */
  predicate IsDomainChar(c: char) {
    ('a' <= c <= 'z') || ('0' <= c <= '9')
  }

  /** The inner label class `[a-z0-9-]`. */
  predicate IsLabelChar(c: char) {
    IsDomainChar(c) || c == '-'
  }

  // ---------------------------------------------------------------------------
  // Reference definition: the language of the expression, group by group.
  // ---------------------------------------------------------------------------

  // Each predicate says that the part s[p..q] of the value belongs to the
  // language of one group of the expression.

  /** `[L]+` */
  ghost predicate LocalAtom(s: string, p: nat, q: nat) {
    p < q <= |s| && forall m :: p <= m < q ==> IsLocalChar(s[m])
  }

  /** `(?:\.[L]+)*` */
  ghost predicate DotAtoms(s: string, p: nat, q: nat)
    decreases q - p
  {
    p == q <= |s| ||
    (p < q <= |s| && s[p] == '.' && exists k :: p + 1 < k <= q && LocalAtom(s, p + 1, k) && DotAtoms(s, k, q))
  }

  /** `[L]+(?:\.[L]+)*` */
  ghost predicate LocalPart(s: string, p: nat, q: nat) {
    exists k :: p < k <= q && LocalAtom(s, p, k) && DotAtoms(s, k, q)
  }

  /** `[D](?:[D-]*[D])?` */
  ghost predicate Label(s: string, p: nat, q: nat) {
    p < q <= |s| && IsDomainChar(s[p]) && IsDomainChar(s[q - 1]) &&
    forall m :: p < m < q - 1 ==> IsLabelChar(s[m])
  }

  /** `(?:[D](?:[D-]*[D])?\.)+[D](?:[D-]*[D])?`: one or more labels each
      followed by '.', then a final label. */
  ghost predicate Domain(s: string, p: nat, q: nat)
    decreases q - p
  {
    q <= |s| &&
    exists k :: p < k < q - 1 && Label(s, p, k) && s[k] == '.' &&
      (Label(s, k + 1, q) || Domain(s, k + 1, q))
  }

  /** s[i..j] as a whole belongs to the language of the expression. */
  ghost predicate EmailPatternMatches(s: string, i: nat, j: nat) {
    j <= |s| && exists a :: i < a < j && s[a] == '@' && LocalPart(s, i, a) && Domain(s, a + 1, j)
  }

  /** What `pattern.test(value)` returns for the unanchored expression: some
      substring of `s` matches. */
  ghost predicate PatternTest(s: string) {
    exists i, j :: 0 <= i <= j <= |s| && EmailPatternMatches(s, i, j)
  }

  // ---------------------------------------------------------------------------
  // Direct matcher.
  // ---------------------------------------------------------------------------

  /** The first index at or after `p` whose character is not in `[a-z0-9-]`,
      or `|s|` when there is none. */
  function LabelEnd(s: string, p: nat): (e: nat)
    requires p <= |s|
    ensures p <= e <= |s|
    ensures forall k :: p <= k < e ==> IsLabelChar(s[k])
    ensures e == |s| || !IsLabelChar(s[e])
    decreases |s| - p
  {
    if p == |s| || !IsLabelChar(s[p]) then p else LabelEnd(s, p + 1)
  }

  /** At index `i` starts the shortest kind of match: one local character,
      '@', a label, '.', and one domain character. */
  predicate EmailHitAt(s: string, i: nat)
    requires i < |s|
  {
    i + 2 < |s| && IsLocalChar(s[i]) && s[i + 1] == '@' && IsDomainChar(s[i + 2]) &&
    var e := LabelEnd(s, i + 2);
    e + 1 < |s| && s[e] == '.' && IsDomainChar(s[e - 1]) && IsDomainChar(s[e + 1])
  }

  /** The matcher the model uses for the `isEmail` rule. */
  predicate ContainsEmail(s: string) {
    exists i :: 0 <= i < |s| && EmailHitAt(s, i)
  }

  // ---------------------------------------------------------------------------
  // Lemmas.
  // ---------------------------------------------------------------------------

  /** The end that LabelEnd finds is the only possible one. */
  lemma {:induction false} LabelEndUnique(s: string, p: nat, e: nat)
    requires p <= e < |s|
    requires forall k :: p <= k < e ==> IsLabelChar(s[k])
    requires !IsLabelChar(s[e])
    ensures LabelEnd(s, p) == e
    decreases e - p
  {
    if p < e {
      LabelEndUnique(s, p + 1, e);
    }
  }

  /** A non-empty `(?:\.[L]+)*` ends with a local character. */
  lemma {:induction false} DotAtomsEndsLocal(s: string, p: nat, q: nat)
    requires DotAtoms(s, p, q) && p < q
    ensures IsLocalChar(s[q - 1])
    decreases q - p
  {
    var k :| p + 1 < k <= q && LocalAtom(s, p + 1, k) && DotAtoms(s, k, q);
    if k < q {
      DotAtomsEndsLocal(s, k, q);
    }
  }

  /** The local part ends with a local character: the one just before '@'. */
  lemma LocalPartEndsLocal(s: string, p: nat, q: nat)
    requires LocalPart(s, p, q)
    ensures p < q <= |s| && IsLocalChar(s[q - 1])
  {
    var k :| p < k <= q && LocalAtom(s, p, k) && DotAtoms(s, k, q);
    if k < q {
      DotAtomsEndsLocal(s, k, q);
    }
  }

  /** The first label of a domain, its '.', and the character after it. */
  lemma DomainHead(s: string, p: nat, j: nat) returns (q: nat)
    requires Domain(s, p, j)
    ensures p < q && q + 1 < j <= |s| && IsDomainChar(s[p]) && IsDomainChar(s[q - 1])
    ensures forall m :: p <= m < q ==> IsLabelChar(s[m])
    ensures s[q] == '.' && IsDomainChar(s[q + 1])
  {
    q :| p < q < j - 1 && Label(s, p, q) && s[q] == '.' &&
      (Label(s, q + 1, j) || Domain(s, q + 1, j));
    if !Label(s, q + 1, j) {
      var r :| q + 1 < r < j - 1 && Label(s, q + 1, r) && s[r] == '.' &&
        (Label(s, r + 1, j) || Domain(s, r + 1, j));
    }
  }

  /** A hit of the direct matcher is a substring in the expression's language. */
  lemma HitIsMatch(s: string, i: nat)
    requires i < |s| && EmailHitAt(s, i)
    ensures EmailPatternMatches(s, i, LabelEnd(s, i + 2) + 2)
  {
    var e := LabelEnd(s, i + 2);
    assert e != i + 2;
    // the local part is the single character s[i]
    assert LocalAtom(s, i, i + 1) && DotAtoms(s, i + 1, i + 1);
    assert LocalPart(s, i, i + 1);
    // the domain is s[i+2..e], '.', s[e+1]
    assert Label(s, i + 2, e) && Label(s, e + 1, e + 2);
    assert Domain(s, i + 2, e + 2);
  }

  /** The conditions of a hit, stated without LabelEnd. */
  lemma HitFromParts(s: string, h: nat, e: nat)
    requires h + 2 < e && e + 1 < |s|
    requires IsLocalChar(s[h]) && s[h + 1] == '@'
    requires forall m :: h + 2 <= m < e ==> IsLabelChar(s[m])
    requires IsDomainChar(s[h + 2]) && IsDomainChar(s[e - 1])
    requires s[e] == '.' && IsDomainChar(s[e + 1])
    ensures EmailHitAt(s, h)
  {
    LabelEndUnique(s, h + 2, e);
  }

  /** A local character, '@' and a domain make a hit at the local character. */
  lemma HitBeforeAt(s: string, a: nat, j: nat)
    requires 0 < a < |s| && IsLocalChar(s[a - 1]) && s[a] == '@' && Domain(s, a + 1, j)
    ensures EmailHitAt(s, a - 1)
  {
    var q := DomainHead(s, a + 1, j);
    HitFromParts(s, a - 1, q);
  }

  /** The '@' of a matching substring, with the local character before it. */
  lemma MatchAt(s: string, i: nat, j: nat) returns (a: nat)
    requires EmailPatternMatches(s, i, j)
    ensures i < a < j <= |s| && s[a] == '@' && IsLocalChar(s[a - 1]) && Domain(s, a + 1, j)
  {
    a :| i < a < j && s[a] == '@' && LocalPart(s, i, a) && Domain(s, a + 1, j);
    LocalPartEndsLocal(s, i, a);
  }

  /** A substring in the expression's language contains a hit of the direct
      matcher: the character before its '@'. */
  lemma MatchGivesHit(s: string, i: nat, j: nat) returns (h: nat)
    requires EmailPatternMatches(s, i, j)
    ensures i <= h < j <= |s| && EmailHitAt(s, h)
  {
    var a := MatchAt(s, i, j);
    HitBeforeAt(s, a, j);
    h := a - 1;
  }

  /** The direct matcher decides exactly what the unanchored expression's
      `test` returns. */
  lemma ContainsEmailIsPatternTest(s: string)
    ensures ContainsEmail(s) <==> PatternTest(s)
  {
    if ContainsEmail(s) {
      var i :| 0 <= i < |s| && EmailHitAt(s, i);
      HitIsMatch(s, i);
      assert 0 <= i <= LabelEnd(s, i + 2) + 2 <= |s|;
    }
    if PatternTest(s) {
      var i, j :| 0 <= i <= j <= |s| && EmailPatternMatches(s, i, j);
      var h := MatchGivesHit(s, i, j);
    }
  }

  /** A hit stays a hit when the value is embedded at offset `d` of `t`. */
  lemma HitShifted(s: string, t: string, d: nat, i: nat)
    requires i < |s| && EmailHitAt(s, i)
    requires d + |s| <= |t| && forall m :: 0 <= m < |s| ==> t[d + m] == s[m]
    ensures EmailHitAt(t, d + i)
  {
    var e := LabelEnd(s, i + 2);
    forall m | d + i + 2 <= m < d + e
      ensures IsLabelChar(t[m])
    {
      assert t[d + (m - d)] == s[m - d];
    }
    assert t[d + i] == s[i] && t[d + i + 1] == s[i + 1] && t[d + i + 2] == s[i + 2];
    assert t[d + e - 1] == s[e - 1] && t[d + e] == s[e] && t[d + e + 1] == s[e + 1];
    HitFromParts(t, d + i, d + e);
  }

  /** A hit of the direct matcher survives text around the value. */
  lemma ContainsEmailSurrounded(pre: string, s: string, post: string)
    requires ContainsEmail(s)
    ensures ContainsEmail(pre + s + post)
  {
    var i :| 0 <= i < |s| && EmailHitAt(s, i);
    var t := pre + s + post;
    forall m | 0 <= m < |s|
      ensures t[|pre| + m] == s[m]
    {
    }
    HitShifted(s, t, |pre|, i);
    assert 0 <= |pre| + i < |t|;
  }

  /** Because the expression is unanchored, text around a matching value does
      not stop it from matching. */
  lemma EmailSurrounded(pre: string, s: string, post: string)
    requires PatternTest(s)
    ensures PatternTest(pre + s + post) && ContainsEmail(pre + s + post)
  {
    ContainsEmailIsPatternTest(s);
    ContainsEmailSurrounded(pre, s, post);
    ContainsEmailIsPatternTest(pre + s + post);
  }

  /** Without an '@' there is no match. */
  lemma NoAtNoEmail(s: string)
    requires forall k :: 0 <= k < |s| ==> s[k] != '@'
    ensures !ContainsEmail(s)
  {
  }

  /** Without a lower-case ASCII letter or a digit there is no match: the
      expression has no `i` flag, so an address written only in capitals fails. */
  lemma NoDomainCharNoEmail(s: string)
    requires forall k :: 0 <= k < |s| ==> !IsDomainChar(s[k])
    ensures !ContainsEmail(s)
  {
  }

  lemma ShortAddressMatches()
    ensures ContainsEmail("a@b.co")
  {
    assert LabelEnd("a@b.co", 2) == 3;
    assert EmailHitAt("a@b.co", 0);
  }

  lemma ExamplesThatFail()
    ensures !ContainsEmail("not-an-email")
    ensures !ContainsEmail("A@B.CO")
  {
    NoAtNoEmail("not-an-email");
    NoDomainCharNoEmail("A@B.CO");
  }
}
