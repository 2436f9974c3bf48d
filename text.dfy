/**
 * The string primitives the service relies on: JavaScript's `String.prototype.trim`,
 * `toLowerCase` (restricted to ASCII letters), `includes`, and a character count.
 */
module Text {

  /**
   * The characters `trim` removes: WhiteSpace and LineTerminator as ECMAScript defines
   * them: tab, line feed, vertical tab, form feed and carriage return (the code points 9
   * to 13), space, no-break space, the other space separators of Unicode category Zs, line
   * and paragraph separator, and the byte order mark.
   */
  predicate IsSpace(c: char) {
    || ('\t' <= c <= '\r') || c == ' ' || c == '\U{00A0}' || c == '\U{1680}'
    || ('\U{2000}' <= c <= '\U{200A}')
    || c == '\U{2028}' || c == '\U{2029}' || c == '\U{202F}' || c == '\U{205F}'
    || c == '\U{3000}' || c == '\U{FEFF}'
  }

  /** A string with no removable character at either end. */
  predicate Trimmed(s: string) {
    s == [] || (!IsSpace(s[0]) && !IsSpace(s[|s| - 1]))
  }

  /** Where the first non-space at or after `i` is, or `|s|` if there is none. */
  function SkipSpaces(s: string, i: nat): (k: nat)
    requires i <= |s|
    ensures i <= k <= |s|
    ensures forall j :: i <= j < k ==> IsSpace(s[j])
    ensures k < |s| ==> !IsSpace(s[k])
    decreases |s| - i
  {
    if i < |s| && IsSpace(s[i]) then SkipSpaces(s, i + 1) else i
  }

  /** Where the spaces that `s[..j]` ends with begin. */
  function BackSpaces(s: string, j: nat): (k: nat)
    requires j <= |s|
    ensures k <= j
    ensures forall i :: k <= i < j ==> IsSpace(s[i])
    ensures k > 0 ==> !IsSpace(s[k - 1])
    decreases j
  {
    if j > 0 && IsSpace(s[j - 1]) then BackSpaces(s, j - 1) else j
  }

  /** Where what `trim` keeps begins. */
  function TrimFrom(s: string): nat {
    SkipSpaces(s, 0)
  }

  /** Where what `trim` keeps ends. */
  function TrimTo(s: string): nat {
    BackSpaces(s, |s|)
  }

  /** Unless `s` is all spaces, the spaces it starts with and those it ends with do not meet. */
  lemma SpacesApart(s: string)
    requires TrimFrom(s) < |s|
    ensures TrimFrom(s) < TrimTo(s)
  {
  }

  /**
   * `s.trim()`: the slice between the leading and the trailing spaces. What it keeps
   * neither starts nor ends with whitespace.
   */
  function Trim(s: string): (r: string)
    ensures |r| <= |s|
    ensures Trimmed(r)
  {
    if TrimFrom(s) == |s| then []
    else
      SpacesApart(s);
      s[TrimFrom(s)..TrimTo(s)]
  }

  /** What `trim` removes is whitespace only: the result is the slice left between two runs of spaces. */
  lemma TrimSlice(s: string)
    ensures var a, r := TrimFrom(s), Trim(s);
      && a + |r| <= |s|
      && (forall i :: 0 <= i < |r| ==> r[i] == s[a + i])
      && (forall i :: 0 <= i < a ==> IsSpace(s[i]))
      && (forall i :: a + |r| <= i < |s| ==> IsSpace(s[i]))
  {
    if TrimFrom(s) < |s| {
      SpacesApart(s);
    }
  }

  /** A trimmed string is left as it is by `trim`. */
  lemma TrimOfTrimmed(s: string)
    requires Trimmed(s)
    ensures Trim(s) == s
  {
    if s != [] {
      assert TrimFrom(s) == 0;
      assert TrimTo(s) == |s|;
      assert s[0..|s|] == s;
    }
  }

  /** `trim` is idempotent. */
  lemma TrimIdempotent(s: string)
    ensures Trim(Trim(s)) == Trim(s)
  {
    TrimOfTrimmed(Trim(s));
  }

  /** `trim` yields the empty string exactly when the input is all whitespace. */
  lemma TrimEmptyIffAllSpace(s: string)
    ensures Trim(s) == [] <==> forall i :: 0 <= i < |s| ==> IsSpace(s[i])
  {
    if TrimFrom(s) < |s| {
      SpacesApart(s);
    }
  }

  /** ASCII upper-case letters are mapped to lower case; every other character is kept. */
  function LowerChar(c: char): (d: char)
    ensures !('A' <= d <= 'Z')
    ensures ('A' <= c <= 'Z') ==> d as int == c as int + 32
    ensures !('A' <= c <= 'Z') ==> d == c
  {
    if 'A' <= c <= 'Z' then (c as int + 32) as char else c
  }

  /** `s.toLowerCase()`, over ASCII letters: the same length, each character lowered. */
  function Lower(s: string): (r: string)
    ensures |r| == |s|
    ensures forall i :: 0 <= i < |s| ==> r[i] == LowerChar(s[i])
  {
    seq(|s|, i requires 0 <= i < |s| => LowerChar(s[i]))
  }

  /** A string without ASCII upper-case letters. */
  predicate IsLower(s: string) {
    forall i :: 0 <= i < |s| ==> !('A' <= s[i] <= 'Z')
  }

  /** Lower-casing leaves no upper-case letter behind, and lower-case strings are fixed. */
  lemma LowerNormalizes(s: string)
    ensures IsLower(Lower(s))
    ensures IsLower(s) ==> Lower(s) == s
    ensures Lower(Lower(s)) == Lower(s)
  {
  }

  /** Lower-casing changes no whitespace character and produces none. */
  lemma LowerCharSpace(c: char)
    ensures IsSpace(LowerChar(c)) <==> IsSpace(c)
    ensures IsSpace(c) ==> LowerChar(c) == c
  {
  }

  lemma {:induction false} LowerSkipSpaces(s: string, i: nat)
    requires i <= |s|
    ensures SkipSpaces(Lower(s), i) == SkipSpaces(s, i)
    decreases |s| - i
  {
    if i < |s| {
      LowerCharSpace(s[i]);
      if IsSpace(s[i]) {
        LowerSkipSpaces(s, i + 1);
      }
    }
  }

  lemma {:induction false} LowerBackSpaces(s: string, j: nat)
    requires j <= |s|
    ensures BackSpaces(Lower(s), j) == BackSpaces(s, j)
    decreases j
  {
    if j > 0 {
      LowerCharSpace(s[j - 1]);
      if IsSpace(s[j - 1]) {
        LowerBackSpaces(s, j - 1);
      }
    }
  }

  /**
   * Trimming and lower-casing commute, so `email.trim().toLowerCase()` and the schema's
   * own `trim` and `lowercase` setters agree whatever order they run in.
   */
  lemma LowerTrimCommute(s: string)
    ensures Lower(Trim(s)) == Trim(Lower(s))
  {
    LowerSkipSpaces(s, 0);
    LowerBackSpaces(s, |s|);
    if TrimFrom(s) < |s| {
      SpacesApart(s);
      LowerSlice(s, TrimFrom(s), TrimTo(s));
    }
  }

  /** Lower-casing a slice is slicing the lower-cased string. */
  lemma LowerSlice(s: string, a: nat, b: nat)
    requires a <= b <= |s|
    ensures Lower(s[a..b]) == Lower(s)[a..b]
  {
    assert forall i :: 0 <= i < b - a ==> Lower(s[a..b])[i] == Lower(s)[a..b][i];
  }

  /** Lower-casing keeps a trimmed string trimmed. */
  lemma LowerKeepsTrimmed(s: string)
    requires Trimmed(s)
    ensures Trimmed(Lower(s))
  {
    if s != [] {
      LowerCharSpace(s[0]);
      LowerCharSpace(s[|s| - 1]);
    }
  }

  /** Number of occurrences of `c` in `s`. */
  function Count(s: string, c: char): (n: nat)
    ensures n <= |s|
    ensures n == 0 <==> forall i :: 0 <= i < |s| ==> s[i] != c
    decreases |s|
  {
    if s == [] then 0 else (if s[0] == c then 1 else 0) + Count(s[1..], c)
  }

  lemma {:induction false} CountConcat(s: string, t: string, c: char)
    ensures Count(s + t, c) == Count(s, c) + Count(t, c)
    decreases |s|
  {
    if s != [] {
      assert (s + t)[0] == s[0];
      assert (s + t)[1..] == s[1..] + t;
      CountConcat(s[1..], t, c);
      assert Count(s + t, c) == (if s[0] == c then 1 else 0) + Count(s[1..] + t, c);
      assert Count(s, c) == (if s[0] == c then 1 else 0) + Count(s[1..], c);
    } else {
      assert s + t == t;
    }
  }

  /** `t` occurs in `s` starting at index `i`. */
  ghost predicate OccursAt(s: string, t: string, i: int) {
    0 <= i && i + |t| <= |s| && s[i..i + |t|] == t
  }

  /** `s.includes(t)`: some prefix of some suffix of `s` is `t`. */
  predicate Contains(s: string, t: string)
    decreases |s|
  {
    t <= s || (|s| > 0 && Contains(s[1..], t))
  }

  lemma {:induction false} OccursContains(s: string, t: string, i: int)
    requires OccursAt(s, t, i)
    ensures Contains(s, t)
    decreases i
  {
    if i > 0 {
      assert s[1..][i - 1..i - 1 + |t|] == s[i..i + |t|];
      OccursContains(s[1..], t, i - 1);
    } else {
      assert t <= s;
    }
  }

  lemma {:induction false} ContainsOccurs(s: string, t: string) returns (i: int)
    requires Contains(s, t)
    ensures OccursAt(s, t, i)
    decreases |s|
  {
    if t <= s {
      i := 0;
    } else {
      var j := ContainsOccurs(s[1..], t);
      assert s[j + 1..j + 1 + |t|] == s[1..][j..j + |t|];
      i := j + 1;
    }
  }

  /** `Contains` holds exactly when `t` occurs somewhere in `s`. */
  lemma ContainsIff(s: string, t: string)
    ensures Contains(s, t) <==> exists i :: OccursAt(s, t, i)
  {
    forall i | OccursAt(s, t, i) ensures Contains(s, t) {
      OccursContains(s, t, i);
    }
    if Contains(s, t) {
      var i := ContainsOccurs(s, t);
    }
  }

  /** A string that contains `t` holds every character of `t`. */
  lemma ContainsHasChars(s: string, t: string)
    ensures Contains(s, t) ==> forall k | 0 <= k < |t| :: t[k] in s
  {
    if Contains(s, t) {
      var i := ContainsOccurs(s, t);
      forall k | 0 <= k < |t| ensures t[k] in s {
        assert t[k] == s[i + k];
      }
    }
  }

  /** Every string contains the empty string, as `includes('')` is always true. */
  lemma ContainsEmpty(s: string)
    ensures Contains(s, "")
  {
  }
}
