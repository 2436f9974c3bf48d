/**
 * The email rule of the contact schema, the regular expression
 *
 *     ^\w+([.-]?\w+)*@\w+([.-]?\w+)*(\.\w{2,3})+$
 *
 * written as a recognizer that splits at the `@` and before the last `.` group (`Matches`),
 * together with a literal transcription of the expression (`RegexMatches`) that follows its
 * concatenations, `?`, `*`, `+` and `{2,3}` one by one. `MatchesIffRegex` proves the two accept the same strings.
 * `\w` is JavaScript's word class without the `u` flag: ASCII letters, digits and `_`.
 */
module EmailPattern {
  import opened Text

  predicate IsWordChar(c: char) {
    ('a' <= c <= 'z') || ('A' <= c <= 'Z') || ('0' <= c <= '9') || c == '_'
  }

  /** The optional separator `[.-]`. */
  predicate IsSep(c: char) {
    c == '.' || c == '-'
  }

  predicate AllWord(s: string) {
    forall i :: 0 <= i < |s| ==> IsWordChar(s[i])
  }

  // ---------------------------------------------------------------------------
  // The recognizer
  // ---------------------------------------------------------------------------

  /**
   * What may follow the first character of `\w+([.-]?\w+)*`: word characters, each
   * separator followed at once by a word character.
   */
  predicate DottedTail(t: string)
    decreases |t|
  {
    || t == []
    || (IsWordChar(t[0]) && DottedTail(t[1..]))
    || (|t| >= 2 && IsSep(t[0]) && IsWordChar(t[1]) && DottedTail(t[2..]))
  }

  /** `\w+([.-]?\w+)*`: a word character followed by a dotted tail. */
  predicate Dotted(s: string) {
    |s| > 0 && IsWordChar(s[0]) && DottedTail(s[1..])
  }

  /** The domain ends in `.` and `k` word characters, after a dotted prefix. */
  predicate TldAt(d: string, k: nat) {
    && |d| >= k + 2
    && d[|d| - k - 1] == '.'
    && AllWord(d[|d| - k..])
    && Dotted(d[..|d| - k - 1])
  }

  /**
   * `\w+([.-]?\w+)*(\.\w{2,3})+`: what precedes the last `\.\w{2,3}` group is itself of
   * the form `\w+([.-]?\w+)*`, so only the last group needs to be split off.
   */
  predicate Domain(d: string) {
    TldAt(d, 2) || TldAt(d, 3)
  }

  /** The whole pattern: a dotted local part, `@`, a domain. */
  predicate Matches(s: string) {
    exists i | 0 <= i < |s| :: s[i] == '@' && Dotted(s[..i]) && Domain(s[i + 1..])
  }

  // ---------------------------------------------------------------------------
  // What every accepted address looks like
  // ---------------------------------------------------------------------------

  lemma {:induction false} DottedTailChars(t: string)
    requires DottedTail(t)
    ensures forall i :: 0 <= i < |t| ==> IsWordChar(t[i]) || IsSep(t[i])
    ensures t != [] ==> IsWordChar(t[|t| - 1])
    decreases |t|
  {
    if t != [] {
      if IsWordChar(t[0]) && DottedTail(t[1..]) {
        DottedTailChars(t[1..]);
        assert forall i :: 1 <= i < |t| ==> t[i] == t[1..][i - 1];
      } else {
        DottedTailChars(t[2..]);
        assert forall i :: 2 <= i < |t| ==> t[i] == t[2..][i - 2];
      }
    }
  }

  lemma DottedChars(s: string)
    requires Dotted(s)
    ensures forall i :: 0 <= i < |s| ==> IsWordChar(s[i]) || IsSep(s[i])
    ensures IsWordChar(s[0]) && IsWordChar(s[|s| - 1])
  {
    DottedTailChars(s[1..]);
    assert forall i :: 1 <= i < |s| ==> s[i] == s[1..][i - 1];
  }

  lemma DomainChars(d: string)
    requires Domain(d)
    ensures forall i :: 0 <= i < |d| ==> IsWordChar(d[i]) || IsSep(d[i])
  {
    var k := if TldAt(d, 2) then 2 else 3;
    var p := d[..|d| - k - 1];
    DottedChars(p);
    forall i | 0 <= i < |d| ensures IsWordChar(d[i]) || IsSep(d[i]) {
      if i < |p| {
        assert d[i] == p[i];
      } else if i > |p| {
        assert d[i] == d[|d| - k..][i - (|d| - k)];
      }
    }
  }

  /** Only word characters and separators. */
  predicate WordOrSep(s: string) {
    forall i :: 0 <= i < |s| ==> IsWordChar(s[i]) || IsSep(s[i])
  }

  lemma NoAt(s: string)
    requires WordOrSep(s)
    ensures Count(s, '@') == 0
  {
  }

  /** An accepted address has exactly one `@`. */
  lemma MatchesOneAt(s: string)
    requires Matches(s)
    ensures Count(s, '@') == 1
  {
    var i :| 0 <= i < |s| && s[i] == '@' && Dotted(s[..i]) && Domain(s[i + 1..]);
    DottedChars(s[..i]);
    DomainChars(s[i + 1..]);
    OneAtBetween(s, i);
  }

  /** A string whose only `@` is at `i` holds exactly one. */
  lemma OneAtBetween(s: string, i: nat)
    requires i < |s| && s[i] == '@'
    requires WordOrSep(s[..i]) && WordOrSep(s[i + 1..])
    ensures Count(s, '@') == 1
  {
    var l, d := s[..i], s[i + 1..];
    NoAt(l);
    NoAt(d);
    assert s == l + [s[i]] + d;
    CountConcat(l + [s[i]], d, '@');
    CountConcat(l, [s[i]], '@');
  }

  /** A string is the concatenation of its two pieces at any cut. */
  lemma Rejoin(s: string, k: nat)
    requires k <= |s|
    ensures s[..k] + s[k..] == s
  {
  }

  /** An accepted address starts with a word character. */
  lemma MatchesStartsWithWord(s: string)
    requires Matches(s)
    ensures |s| > 0 && IsWordChar(s[0])
  {
    var i :| 0 <= i < |s| && s[i] == '@' && Dotted(s[..i]) && Domain(s[i + 1..]);
    assert s[..i][0] == s[0];
  }

  /** `s` ends with `.` followed by `k` word characters. */
  predicate EndsWithTld(s: string, k: nat) {
    |s| >= k + 1 && s[|s| - k - 1] == '.' && AllWord(s[|s| - k..])
  }

  /** An accepted address ends with `.` and two or three word characters. */
  lemma MatchesEndsWithTld(s: string)
    requires Matches(s)
    ensures EndsWithTld(s, 2) || EndsWithTld(s, 3)
  {
    var i :| 0 <= i < |s| && s[i] == '@' && Dotted(s[..i]) && Domain(s[i + 1..]);
    var k := if TldAt(s[i + 1..], 2) then 2 else 3;
    EndsWithTldPrefix(s[..i + 1], s[i + 1..], k);
    Rejoin(s, i + 1);
  }

  /** A domain ending with `.` and `k` word characters still does so after a prefix. */
  lemma EndsWithTldPrefix(p: string, d: string, k: nat)
    requires TldAt(d, k)
    ensures EndsWithTld(p + d, k)
  {
    var s := p + d;
    assert d[|d| - k..] == s[|s| - k..];
    assert d[|d| - k - 1] == s[|s| - k - 1];
  }

  /** An accepted address holds no whitespace, so it is left unchanged by `trim`. */
  lemma MatchesIsTrimmed(s: string)
    requires Matches(s)
    ensures Trimmed(s)
  {
    MatchesStartsWithWord(s);
    MatchesEndsWithTld(s);
    var k := if EndsWithTld(s, 2) then 2 else 3;
    assert s[|s| - 1] == s[|s| - k..][k - 1];
  }

  // ---------------------------------------------------------------------------
  // The regular expression, transcribed operator by operator
  // ---------------------------------------------------------------------------

  /** `\w+` */
  ghost predicate WordPlus(s: string) {
    |s| >= 1 && AllWord(s)
  }

  /** `[.-]?\w+` */
  ghost predicate SepWord(s: string) {
    WordPlus(s) || (|s| >= 2 && IsSep(s[0]) && WordPlus(s[1..]))
  }

  /** `([.-]?\w+)*` */
  ghost predicate SepWordStar(s: string)
    decreases |s|
  {
    s == [] || exists k :: 1 <= k <= |s| && SepWord(s[..k]) && SepWordStar(s[k..])
  }

  /** `\w+([.-]?\w+)*` */
  ghost predicate Label(s: string) {
    exists k :: 1 <= k <= |s| && WordPlus(s[..k]) && SepWordStar(s[k..])
  }

  /** `\.\w{2,3}` */
  ghost predicate TldGroup(s: string) {
    (|s| == 3 || |s| == 4) && s[0] == '.' && AllWord(s[1..])
  }

  /** `(\.\w{2,3})+` */
  ghost predicate TldPlus(s: string)
    decreases |s|
  {
    TldGroup(s) || exists k :: 1 <= k < |s| && TldGroup(s[..k]) && TldPlus(s[k..])
  }

  /** `\w+([.-]?\w+)*(\.\w{2,3})+` */
  ghost predicate RegexDomain(d: string) {
    exists j :: 0 <= j <= |d| && Label(d[..j]) && TldPlus(d[j..])
  }

  /** `^\w+([.-]?\w+)*@\w+([.-]?\w+)*(\.\w{2,3})+$` */
  ghost predicate RegexMatches(s: string) {
    exists i :: 0 <= i < |s| && s[i] == '@' && Label(s[..i]) && RegexDomain(s[i + 1..])
  }

  // ---------------------------------------------------------------------------
  // The recognizer accepts exactly what the expression accepts
  // ---------------------------------------------------------------------------

  /** Word characters in front of a dotted tail leave a dotted tail. */
  lemma {:induction false} WordsThenTail(w: string, v: string)
    requires AllWord(w) && DottedTail(v)
    ensures DottedTail(w + v)
    decreases |w|
  {
    if w != [] {
      assert (w + v)[1..] == w[1..] + v;
      WordsThenTail(w[1..], v);
    } else {
      assert w + v == v;
    }
  }

  lemma {:induction false} TailIsStar(t: string)
    requires DottedTail(t)
    ensures SepWordStar(t)
    decreases |t|
  {
    if t != [] {
      if IsWordChar(t[0]) && DottedTail(t[1..]) {
        TailIsStar(t[1..]);
        assert SepWord(t[..1]);
        assert SepWordStar(t) by { assert SepWord(t[..1]) && SepWordStar(t[1..]); }
      } else {
        TailIsStar(t[2..]);
        assert t[..2][1..] == [t[1]];
        assert SepWord(t[..2]);
        assert SepWordStar(t) by { assert SepWord(t[..2]) && SepWordStar(t[2..]); }
      }
    }
  }

  lemma {:induction false} StarIsTail(t: string)
    requires SepWordStar(t)
    ensures DottedTail(t)
    decreases |t|
  {
    if t != [] {
      var k :| 1 <= k <= |t| && SepWord(t[..k]) && SepWordStar(t[k..]);
      StarIsTail(t[k..]);
      var u, v := t[..k], t[k..];
      assert t == u + v;
      if WordPlus(u) {
        WordsThenTail(u, v);
      } else {
        WordsThenTail(u[1..], v);
        assert (u + v)[1..] == u[1..] + v;
        assert (u + v)[1..][0] == u[1];
        assert (u + v)[2..] == (u + v)[1..][1..];
      }
    }
  }

  lemma LabelIffDotted(s: string)
    ensures Label(s) <==> Dotted(s)
  {
    if Label(s) {
      var k :| 1 <= k <= |s| && WordPlus(s[..k]) && SepWordStar(s[k..]);
      StarIsTail(s[k..]);
      assert s[..k][1..] == s[1..k];
      WordsThenTail(s[1..k], s[k..]);
      assert s[1..k] + s[k..] == s[1..];
      assert s[0] == s[..k][0];
    }
    if Dotted(s) {
      TailIsStar(s[1..]);
      assert WordPlus(s[..1]);
    }
  }

  /** A dotted string followed by `.` and word characters is still dotted. */
  lemma {:induction false} TailAppendGroup(a: string, g: string)
    requires DottedTail(a) && |g| >= 2 && IsSep(g[0]) && AllWord(g[1..])
    ensures DottedTail(a + g)
    decreases |a|
  {
    if a == [] {
      assert a + g == g;
      WordsThenTail(g[2..], []);
      assert g[2..] + [] == g[2..];
    } else if IsWordChar(a[0]) && DottedTail(a[1..]) {
      TailAppendGroup(a[1..], g);
      DropFromConcat(a, g, 1);
    } else {
      TailAppendGroup(a[2..], g);
      DropFromConcat(a, g, 2);
    }
  }

  /** Dropping a prefix of `a` from `a + g` leaves the rest of `a` followed by `g`. */
  lemma DropFromConcat(a: string, g: string, n: nat)
    requires n <= |a|
    ensures (a + g)[n..] == a[n..] + g
    ensures |a + g| > n ==> (a + g)[n] == (a + g)[n..][0]
  {
  }

  lemma DottedAppendGroup(p: string, g: string)
    requires Dotted(p) && TldGroup(g)
    ensures Dotted(p + g)
  {
    TailAppendGroup(p[1..], g);
    assert (p + g)[1..] == p[1..] + g;
  }

  lemma DottedGroupIsTldAt(p: string, g: string)
    requires Dotted(p) && TldGroup(g)
    ensures TldAt(p + g, |g| - 1)
  {
    var d, k := p + g, |g| - 1;
    assert d[..|d| - k - 1] == p;
    assert d[|d| - k..] == g[1..];
    assert d[|d| - k - 1] == g[0];
  }

  lemma {:induction false} DottedTldPlusIsDomain(p: string, u: string)
    requires Dotted(p) && TldPlus(u)
    ensures Domain(p + u)
    decreases |u|
  {
    if TldGroup(u) {
      DottedGroupIsTldAt(p, u);
    } else {
      var k :| 1 <= k < |u| && TldGroup(u[..k]) && TldPlus(u[k..]);
      var q, v := p + u[..k], u[k..];
      DottedAppendGroup(p, u[..k]);
      SplitAfter(p, u, k);
      DottedTldPlusIsDomain(q, v);
    }
  }

  /** Cutting `u` at `k` and moving the first piece onto `p` leaves the concatenation as it was. */
  lemma SplitAfter(p: string, u: string, k: nat)
    requires k <= |u|
    ensures (p + u[..k]) + u[k..] == p + u
  {
    assert u[..k] + u[k..] == u;
  }

  lemma RegexDomainIsDomain(d: string)
    requires RegexDomain(d)
    ensures Domain(d)
  {
    var j :| 0 <= j <= |d| && Label(d[..j]) && TldPlus(d[j..]);
    LabelIffDotted(d[..j]);
    DottedTldPlusIsDomain(d[..j], d[j..]);
    Rejoin(d, j);
  }

  lemma DomainIsRegexDomain(d: string)
    requires Domain(d)
    ensures RegexDomain(d)
  {
    var k := if TldAt(d, 2) then 2 else 3;
    var j := |d| - k - 1;
    LabelIffDotted(d[..j]);
    assert d[j..][1..] == d[|d| - k..];
    assert TldGroup(d[j..]);
  }

  /** Splitting off only the last top-level group accepts the same domains as the expression. */
  lemma DomainIffRegex(d: string)
    ensures Domain(d) <==> RegexDomain(d)
  {
    if RegexDomain(d) {
      RegexDomainIsDomain(d);
    }
    if Domain(d) {
      DomainIsRegexDomain(d);
    }
  }

  /** The recognizer and the regular expression accept the same strings. */
  lemma MatchesIffRegex(s: string)
    ensures Matches(s) <==> RegexMatches(s)
  {
    forall i | 0 <= i < |s|
      ensures (Dotted(s[..i]) <==> Label(s[..i])) && (Domain(s[i + 1..]) <==> RegexDomain(s[i + 1..]))
    {
      LabelIffDotted(s[..i]);
      DomainIffRegex(s[i + 1..]);
    }
  }
}
