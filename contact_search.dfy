/**
 * The contact list's search box: the contacts shown are those whose name, email or company
 * contains the search term ignoring case, or whose phone contains it as typed. The loaded
 * contacts are kept as they are; the filtered list is a new list.
 */
module ContactSearch {
  import opened Wrappers
  import opened Text

  /** A contact as the list receives it: `company` may be missing, `null` or empty. */
  datatype Row = Row(name: string, email: string, phone: string, company: Option<string>)

  /** A column matched ignoring case: both the value and the term are lower-cased. */
  predicate FoldedMatch(value: string, term: string) {
    Contains(Lower(value), Lower(term))
  }

  /** The columns matched ignoring case: name, email, and company when it is truthy. */
  predicate FoldedColumnsMatch(c: Row, term: string) {
    || FoldedMatch(c.name, term)
    || FoldedMatch(c.email, term)
    || (c.company.Some? && c.company.value != "" && FoldedMatch(c.company.value, term))
  }

  /** The filter's predicate: a case-folded column matches, or the phone contains the term as typed. */
  predicate MatchesTerm(c: Row, term: string) {
    FoldedColumnsMatch(c, term) || Contains(c.phone, term)
  }

  /** `contacts.filter(...)`: the matching contacts, in the order they were loaded. */
  function Filter(cs: seq<Row>, term: string): (r: seq<Row>)
    ensures |r| <= |cs|
    ensures forall c :: c in r <==> c in cs && MatchesTerm(c, term)
    decreases |cs|
  {
    if cs == [] then []
    else (if MatchesTerm(cs[0], term) then [cs[0]] else []) + Filter(cs[1..], term)
  }

  /** Filtering a concatenation filters each part and keeps them in order. */
  lemma {:induction false} FilterConcat(a: seq<Row>, b: seq<Row>, term: string)
    ensures Filter(a + b, term) == Filter(a, term) + Filter(b, term)
    decreases |a|
  {
    if a == [] {
      assert a + b == b;
    } else {
      assert (a + b)[0] == a[0];
      assert (a + b)[1..] == a[1..] + b;
      FilterConcat(a[1..], b, term);
    }
  }

  /** A single contact is kept exactly when it matches. */
  lemma FilterOne(c: Row, term: string)
    ensures Filter([c], term) == if MatchesTerm(c, term) then [c] else []
  {
    assert [c][1..] == [];
  }

  /**
   * Together with `FilterConcat` this fixes the result entirely: the filtered list is the
   * loaded list with exactly the non-matching contacts removed, the rest in their order.
   */
  lemma {:induction false} FilterKeepsMatching(cs: seq<Row>, term: string)
    requires forall i :: 0 <= i < |cs| ==> MatchesTerm(cs[i], term)
    ensures Filter(cs, term) == cs
    decreases |cs|
  {
    if cs != [] {
      FilterKeepsMatching(cs[1..], term);
    }
  }

  /** Filtering twice with the same term is filtering once. */
  lemma {:induction false} FilterIdempotent(cs: seq<Row>, term: string)
    ensures Filter(Filter(cs, term), term) == Filter(cs, term)
  {
    var r := Filter(cs, term);
    forall i | 0 <= i < |r| ensures MatchesTerm(r[i], term) {
      assert r[i] in r;
    }
    FilterKeepsMatching(r, term);
  }

  /** The empty term, the search box's initial state, keeps every contact. */
  lemma EmptyTermKeepsAll(cs: seq<Row>)
    ensures Filter(cs, "") == cs
  {
    forall i | 0 <= i < |cs| ensures MatchesTerm(cs[i], "") {
      ContainsEmpty(cs[i].phone);
    }
    FilterKeepsMatching(cs, "");
  }

  /** A contact without a truthy company is found only through its name, email or phone. */
  lemma NoCompanyMatchesByOthers(c: Row, term: string)
    requires c.company.None? || c.company.value == ""
    ensures MatchesTerm(c, term) <==> FoldedMatch(c.name, term) || FoldedMatch(c.email, term) || Contains(c.phone, term)
  {
  }

  /**
   * Name, email and company ignore the case of the term: lower-casing the term first
   * changes nothing for them. Only the phone sees the term as typed.
   */
  lemma FoldedColumnsIgnoreTermCase(c: Row, term: string)
    ensures FoldedColumnsMatch(c, Lower(term)) <==> FoldedColumnsMatch(c, term)
    ensures MatchesTerm(c, Lower(term)) <==> FoldedColumnsMatch(c, term) || Contains(c.phone, Lower(term))
  {
    LowerNormalizes(term);
  }

  /** Name, email and company also ignore the case of the stored value. */
  lemma FoldedColumnsIgnoreValueCase(c: Row, term: string)
    ensures FoldedColumnsMatch(c.(name := Lower(c.name), email := Lower(c.email)), term) <==> FoldedColumnsMatch(c, term)
    ensures c.company.Some? ==>
      (FoldedColumnsMatch(c.(company := Some(Lower(c.company.value))), term) <==> FoldedColumnsMatch(c, term))
  {
    LowerNormalizes(c.name);
    LowerNormalizes(c.email);
    if c.company.Some? {
      LowerNormalizes(c.company.value);
    }
  }

  /**
   * Only the phone is matched case-sensitively. A contact found through its phone by a term
   * such as "ABC" is not found by the lower-cased term "abc" when a letter of "abc" appears in
   * neither its lower-cased name, its lower-cased email nor its phone.
   */
  lemma PhoneIsCaseSensitive(c: Row, term: string, ch: char)
    requires c.company.None? || c.company.value == ""
    requires Contains(c.phone, term)
    requires ch in Lower(term) && ch !in Lower(c.name) && ch !in Lower(c.email) && ch !in c.phone
    ensures MatchesTerm(c, term)
    ensures !MatchesTerm(c, Lower(term))
  {
    LowerNormalizes(term);
    ContainsHasChars(Lower(c.name), Lower(term));
    ContainsHasChars(Lower(c.email), Lower(term));
    ContainsHasChars(c.phone, Lower(term));
  }
}
