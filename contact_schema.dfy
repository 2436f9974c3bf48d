/**
 * The contact schema: the four string paths with their setters (`trim`, `lowercase`) and
 * validators (`required`, `maxlength`, `match`), the stored document with the id the store
 * assigns and the two timestamps `timestamps: true` adds, and the unique index on email,
 * stated here as a property of a whole collection.
 */
module ContactSchema {
  import opened Wrappers
  import opened Text
  import EmailPattern

  const NameMaxLength: nat := 100
  const PhoneMaxLength: nat := 20
  const CompanyMaxLength: nat := 100

  const NameRequired := "El nombre es requerido"
  const NameTooLong := "El nombre no puede exceder 100 caracteres"
  const EmailRequired := "El email es requerido"
  const EmailInvalid := "Por favor ingresa un email válido"
  const PhoneRequired := "El teléfono es requerido"
  const PhoneTooLong := "El teléfono no puede exceder 20 caracteres"
  const CompanyTooLong := "La empresa no puede exceder 100 caracteres"

  /** The four user-supplied paths of a contact. */
  datatype Fields = Fields(name: string, email: string, phone: string, company: string)

  /** Identifiers are opaque; the store hands out fresh ones. */
  type Id = nat

  /** A stored contact: its id, the four paths, and the creation and last-update times. */
  datatype Contact = Contact(
    id: Id,
    name: string,
    email: string,
    phone: string,
    company: string,
    createdAt: nat,
    updatedAt: nat)

  function FieldsOf(c: Contact): Fields {
    Fields(c.name, c.email, c.phone, c.company)
  }

  // ---------------------------------------------------------------------------
  // Setters
  // ---------------------------------------------------------------------------

  /**
   * The schema's setters as they run when a document is built or an update is cast:
   * `trim` on every path and `lowercase` on email. Trimming and lower-casing commute
   * (`Text.LowerTrimCommute`), so the order the two email setters run in does not matter.
   */
  function Cast(f: Fields): Fields {
    Fields(Trim(f.name), Trim(Lower(f.email)), Trim(f.phone), Trim(f.company))
  }

  /** Fields in stored form: every path trimmed, email without upper-case letters. */
  predicate Normal(f: Fields) {
    Trimmed(f.name) && Trimmed(f.email) && IsLower(f.email) && Trimmed(f.phone) && Trimmed(f.company)
  }

  /** The setters always produce stored form. */
  lemma CastIsNormal(f: Fields)
    ensures Normal(Cast(f))
  {
    LowerKeepsTrimmed(Trim(f.email));
    LowerNormalizes(Trim(f.email));
    LowerTrimCommute(f.email);
  }

  /** The setters change nothing on fields already in stored form. */
  lemma CastOfNormal(f: Fields)
    requires Normal(f)
    ensures Cast(f) == f
  {
    TrimOfTrimmed(f.name);
    TrimOfTrimmed(f.phone);
    TrimOfTrimmed(f.company);
    LowerNormalizes(f.email);
    TrimOfTrimmed(f.email);
  }

  /** Normalisation is idempotent. */
  lemma CastIdempotent(f: Fields)
    ensures Cast(Cast(f)) == Cast(f)
  {
    CastIsNormal(f);
    CastOfNormal(Cast(f));
  }

  // ---------------------------------------------------------------------------
  // Validators
  // ---------------------------------------------------------------------------

  datatype Kind = Required | MaxLength | Regexp

  /** What a failing validator reports: the path, the kind of rule, and the schema's message. */
  datatype ValidatorError = ValidatorError(path: string, kind: Kind, message: string)

  /** One validator of a path, with the message the schema gives it. */
  datatype Rule =
    | RequiredRule(message: string)
    | MaxLengthRule(max: nat, message: string)
    | MatchRule(message: string)

  /**
   * Whether a validator rejects a (cast) string value. `required` on a string path
   * accepts only a non-empty string; `maxlength` compares the length; `match` lets the
   * empty string through and tests every other value against the pattern.
   */
  predicate RuleFails(r: Rule, v: string) {
    match r
    case RequiredRule(_) => v == ""
    case MaxLengthRule(n, _) => |v| > n
    case MatchRule(_) => v != "" && !EmailPattern.Matches(v)
  }

  function ErrorOf(path: string, r: Rule): ValidatorError {
    match r
    case RequiredRule(m) => ValidatorError(path, Required, m)
    case MaxLengthRule(_, m) => ValidatorError(path, MaxLength, m)
    case MatchRule(m) => ValidatorError(path, Regexp, m)
  }

  /** `required` first, then the others in the order the schema declares them. */
  const NameRules: seq<Rule> := [RequiredRule(NameRequired), MaxLengthRule(NameMaxLength, NameTooLong)]
  const EmailRules: seq<Rule> := [RequiredRule(EmailRequired), MatchRule(EmailInvalid)]
  const PhoneRules: seq<Rule> := [RequiredRule(PhoneRequired), MaxLengthRule(PhoneMaxLength, PhoneTooLong)]
  const CompanyRules: seq<Rule> := [MaxLengthRule(CompanyMaxLength, CompanyTooLong)]

  /** The validators of one path run in order; the first that fails is the path's error. */
  function FirstFailure(path: string, rules: seq<Rule>, v: string): (e: Option<ValidatorError>)
    ensures e.None? <==> forall i :: 0 <= i < |rules| ==> !RuleFails(rules[i], v)
    ensures e.Some? ==> exists i :: (0 <= i < |rules| && RuleFails(rules[i], v) && e.value == ErrorOf(path, rules[i])
      && forall j :: 0 <= j < i ==> !RuleFails(rules[j], v))
    ensures e.Some? ==> e.value.path == path
    decreases |rules|
  {
    if rules == [] then None
    else if RuleFails(rules[0], v) then Some(ErrorOf(path, rules[0]))
    else
      var e := FirstFailure(path, rules[1..], v);
      assert e.Some? ==> exists i :: (1 <= i < |rules| && e.value == ErrorOf(path, rules[i]) && RuleFails(rules[i], v)
        && forall j :: 0 <= j < i ==> !RuleFails(rules[j], v)) by {
        if e.Some? {
          var j :| 0 <= j < |rules[1..]| && RuleFails(rules[1..][j], v) && e.value == ErrorOf(path, rules[1..][j])
            && forall j' :: 0 <= j' < j ==> !RuleFails(rules[1..][j'], v);
          assert rules[1..][j] == rules[j + 1];
          assert forall j' :: 1 <= j' < j + 1 ==> rules[j'] == rules[1..][j' - 1];
        }
      }
      e
  }

  /** The first failing validator of a two-validator path. */
  lemma FirstFailureOfTwo(path: string, r0: Rule, r1: Rule, v: string)
    ensures FirstFailure(path, [r0, r1], v) ==
      if RuleFails(r0, v) then Some(ErrorOf(path, r0))
      else if RuleFails(r1, v) then Some(ErrorOf(path, r1))
      else None
  {
    assert [r0, r1][1..] == [r1];
    assert [r1][1..] == [];
  }

  lemma FirstFailureOfOne(path: string, r0: Rule, v: string)
    ensures FirstFailure(path, [r0], v) == if RuleFails(r0, v) then Some(ErrorOf(path, r0)) else None
  {
    assert [r0][1..] == [];
  }

  /** The `name` path: `required`, then `maxlength` 100. */
  function NameError(v: string): (e: Option<ValidatorError>)
    ensures e == if v == "" then Some(ValidatorError("name", Required, NameRequired))
      else if |v| > NameMaxLength then Some(ValidatorError("name", MaxLength, NameTooLong))
      else None
  {
    FirstFailureOfTwo("name", NameRules[0], NameRules[1], v);
    FirstFailure("name", NameRules, v)
  }

  /** The `email` path: `required`, then `match` against the pattern. */
  function EmailError(v: string): (e: Option<ValidatorError>)
    ensures e == if v == "" then Some(ValidatorError("email", Required, EmailRequired))
      else if !EmailPattern.Matches(v) then Some(ValidatorError("email", Regexp, EmailInvalid))
      else None
  {
    FirstFailureOfTwo("email", EmailRules[0], EmailRules[1], v);
    FirstFailure("email", EmailRules, v)
  }

  /** The `phone` path: `required`, then `maxlength` 20. */
  function PhoneError(v: string): (e: Option<ValidatorError>)
    ensures e == if v == "" then Some(ValidatorError("phone", Required, PhoneRequired))
      else if |v| > PhoneMaxLength then Some(ValidatorError("phone", MaxLength, PhoneTooLong))
      else None
  {
    FirstFailureOfTwo("phone", PhoneRules[0], PhoneRules[1], v);
    FirstFailure("phone", PhoneRules, v)
  }

  /** The `company` path: `maxlength` 100 only. */
  function CompanyError(v: string): (e: Option<ValidatorError>)
    ensures e == if |v| > CompanyMaxLength then Some(ValidatorError("company", MaxLength, CompanyTooLong)) else None
  {
    FirstFailureOfOne("company", CompanyRules[0], v);
    FirstFailure("company", CompanyRules, v)
  }

  /** A path's entry in the error map: present only when the path failed. */
  function Entry(path: string, e: Option<ValidatorError>): (m: map<string, ValidatorError>)
    ensures m.Keys <= {path}
    ensures path in m <==> e.Some?
    ensures path in m ==> m[path] == e.value
  {
    match e
    case None => map[]
    case Some(err) => map[path := err]
  }

  /**
   * Document validation: every path is checked and every failing path is reported under
   * its own name, with the message of its first failing validator.
   */
  function Validate(f: Fields): (errs: map<string, ValidatorError>)
    ensures errs.Keys <= {"name", "email", "phone", "company"}
    ensures "name" in errs <==> f.name == "" || |f.name| > NameMaxLength
    ensures "name" in errs ==>
      errs["name"] == (if f.name == "" then ValidatorError("name", Required, NameRequired) else ValidatorError("name", MaxLength, NameTooLong))
    ensures "email" in errs <==> !EmailPattern.Matches(f.email)
    ensures "email" in errs ==>
      errs["email"] == (if f.email == "" then ValidatorError("email", Required, EmailRequired) else ValidatorError("email", Regexp, EmailInvalid))
    ensures "phone" in errs <==> f.phone == "" || |f.phone| > PhoneMaxLength
    ensures "phone" in errs ==>
      errs["phone"] == (if f.phone == "" then ValidatorError("phone", Required, PhoneRequired) else ValidatorError("phone", MaxLength, PhoneTooLong))
    ensures "company" in errs <==> |f.company| > CompanyMaxLength
    ensures "company" in errs ==> errs["company"] == ValidatorError("company", MaxLength, CompanyTooLong)
  {
    var m := Entry("name", NameError(f.name))
      + Entry("email", EmailError(f.email))
      + Entry("phone", PhoneError(f.phone))
      + Entry("company", CompanyError(f.company));
    EntriesJoin("name", "email", "phone", "company",
      NameError(f.name), EmailError(f.email), PhoneError(f.phone), CompanyError(f.company));
    m
  }

  /** Joining the entries of four distinct paths keeps each path's own error. */
  lemma EntriesJoin(p0: string, p1: string, p2: string, p3: string,
                    e0: Option<ValidatorError>, e1: Option<ValidatorError>,
                    e2: Option<ValidatorError>, e3: Option<ValidatorError>)
    requires p0 != p1 && p0 != p2 && p0 != p3 && p1 != p2 && p1 != p3 && p2 != p3
    ensures var m := Entry(p0, e0) + Entry(p1, e1) + Entry(p2, e2) + Entry(p3, e3);
      && m.Keys <= {p0, p1, p2, p3}
      && (p0 in m <==> e0.Some?) && (p0 in m ==> m[p0] == e0.value)
      && (p1 in m <==> e1.Some?) && (p1 in m ==> m[p1] == e1.value)
      && (p2 in m <==> e2.Some?) && (p2 in m ==> m[p2] == e2.value)
      && (p3 in m <==> e3.Some?) && (p3 in m ==> m[p3] == e3.value)
  {
  }

  /**
   * Every path meets its constraints: name and phone present and within their lengths, the
   * email accepted by the pattern, the company within its length.
   */
  predicate Passes(f: Fields) {
    && f.name != "" && |f.name| <= NameMaxLength
    && EmailPattern.Matches(f.email)
    && f.phone != "" && |f.phone| <= PhoneMaxLength
    && |f.company| <= CompanyMaxLength
  }

  /** A document passes validation exactly when every path meets its constraints. */
  lemma ValidateEmptyIff(f: Fields)
    ensures Validate(f) == map[] <==> Passes(f)
  {
    var errs := Validate(f);
    if errs != map[] {
      var k :| k in errs;
    }
  }

  // ---------------------------------------------------------------------------
  // Stored documents and the collection
  // ---------------------------------------------------------------------------

  /**
   * What every stored contact satisfies: the paths are in stored form and pass
   * validation, and it was last updated no earlier than it was created.
   */
  predicate WellFormed(c: Contact) {
    Normal(FieldsOf(c)) && Passes(FieldsOf(c)) && c.createdAt <= c.updatedAt
  }

  /** The unique index on email: no two stored contacts share one. */
  ghost predicate UniqueEmails(records: map<Id, Contact>) {
    forall a, b | a in records && b in records && a != b :: records[a].email != records[b].email
  }
}
