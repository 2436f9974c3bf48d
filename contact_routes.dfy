/**
 * The contact routes: the five request handlers over a collection of contacts, with the
 * required-field pre-check, the duplicate-email pre-check, normalisation, the store's
 * writes, and the mapping of every outcome to a status code and response body.
 *
 * The collection is held in memory by `ContactService`: a map from id to contact, the next
 * id to hand out, and a clock that advances on every successful insert or update and stands in for
 * the time stamps the store records.
 */
module ContactRoutes {
  import opened Wrappers
  import opened Text
  import opened ContactSchema

  /** A request body: each field is a string, or `None` when it is absent or `null`. */
  datatype Input = Input(name: Option<string>, email: Option<string>, phone: Option<string>, company: Option<string>)

  /** JavaScript truthiness of a body field: present and not the empty string. */
  predicate Truthy(v: Option<string>) {
    v.Some? && v.value != ""
  }

  /** The pre-check `name && email && phone`, taken on the raw body. */
  predicate HasRequired(i: Input) {
    Truthy(i.name) && Truthy(i.email) && Truthy(i.phone)
  }

  const RequiredFieldsMessage := "Nombre, email y teléfono son requeridos"
  const NameMissingMessage := "Nombre es requerido"
  const EmailMissingMessage := "Email es requerido"
  const PhoneMissingMessage := "Teléfono es requerido"
  const DuplicateMessage := "Ya existe un contacto con este email"
  const OtherDuplicateMessage := "Ya existe otro contacto con este email"
  const ValidationMessage := "Error de validación"
  const UpdateFailedMessage := "Error al actualizar contacto"
  const NotFoundMessage := "Contacto no encontrado"
  const CreatedMessage := "Contacto creado exitosamente"
  const UpdatedMessage := "Contacto actualizado exitosamente"
  const DeletedMessage := "Contacto eliminado exitosamente"

  /** An `errors` object: field name to message, or to `null`. */
  type Errors = map<string, Option<string>>

  /** The `data` of a response: nothing, one contact, or a list with its `count`. */
  datatype Body = NoData | One(contact: Contact) | Many(contacts: seq<Contact>, count: nat)

  /** A response: status code, `success`, `message`, `data` and `errors`, each as the handler sends it. */
  datatype Response = Response(status: nat, success: bool, message: Option<string>, body: Body, errors: Option<Errors>)

  function NotFound(): Response {
    Response(404, false, Some(NotFoundMessage), NoData, None)
  }

  function Failure(message: string): Response {
    Response(400, false, Some(message), NoData, None)
  }

  /**
   * The `errors` object of a body that fails the required-field pre-check: all three
   * required fields are listed, a missing one with its message and a present one with `null`.
   */
  function MissingFieldErrors(i: Input): (m: Errors)
    ensures m.Keys == {"name", "email", "phone"}
    ensures m["name"].None? <==> Truthy(i.name)
    ensures m["email"].None? <==> Truthy(i.email)
    ensures m["phone"].None? <==> Truthy(i.phone)
    ensures m["name"].Some? ==> m["name"].value == NameMissingMessage
    ensures m["email"].Some? ==> m["email"].value == EmailMissingMessage
    ensures m["phone"].Some? ==> m["phone"].value == PhoneMissingMessage
  {
    map[
      "name" := if Truthy(i.name) then None else Some(NameMissingMessage),
      "email" := if Truthy(i.email) then None else Some(EmailMissingMessage),
      "phone" := if Truthy(i.phone) then None else Some(PhoneMissingMessage)]
  }

  /**
   * The object literal the create and update handlers build once the pre-checks pass:
   * name and phone trimmed, email trimmed and lower-cased, company trimmed or `''`.
   * It is what the schema's setters make of the same body with company defaulted to `''`.
   */
  function Normalize(i: Input): (f: Fields)
    requires i.name.Some? && i.email.Some? && i.phone.Some?
    ensures f == Cast(Fields(i.name.value, i.email.value, i.phone.value, i.company.GetOr("")))
    ensures Normal(f)
  {
    LowerTrimCommute(i.email.value);
    var f := Fields(
      Trim(i.name.value),
      Lower(Trim(i.email.value)),
      Trim(i.phone.value),
      if Truthy(i.company) then Trim(i.company.value) else "");
    CastIsNormal(Fields(i.name.value, i.email.value, i.phone.value, i.company.GetOr("")));
    f
  }

  /** Normalising what the handlers already normalised changes nothing. */
  lemma NormalizeIsStable(i: Input)
    requires i.name.Some? && i.email.Some? && i.phone.Some?
    ensures Cast(Normalize(i)) == Normalize(i)
  {
    CastOfNormal(Normalize(i));
  }

  /**
   * A name made only of whitespace passes the pre-check, is trimmed to `''`, and is then
   * rejected by the schema's `required` rule.
   */
  lemma BlankNameFailsSchema(i: Input)
    requires HasRequired(i)
    requires forall k :: 0 <= k < |i.name.value| ==> IsSpace(i.name.value[k])
    ensures "name" in Validate(Normalize(i))
    ensures Validate(Normalize(i))["name"] == ValidatorError("name", Required, NameRequired)
  {
    TrimEmptyIffAllSpace(i.name.value);
  }

  /** The loop that copies each failing path's message into the response's `errors`. */
  method CollectErrors(errs: map<string, ValidatorError>) returns (out: Errors)
    ensures out.Keys == errs.Keys
    ensures forall k | k in out :: out[k] == Some(errs[k].message)
  {
    out := map[];
    var keys := errs.Keys;
    while keys != {}
      invariant keys <= errs.Keys
      invariant out.Keys == errs.Keys - keys
      invariant forall k | k in out :: out[k] == Some(errs[k].message)
      decreases keys
    {
      var k :| k in keys;
      out := out[k := Some(errs[k].message)];
      keys := keys - {k};
    }
  }

  /** The `errors` object lists exactly the failing paths, each with its schema message. */
  ghost predicate ReportsAll(e: Option<Errors>, errs: map<string, ValidatorError>) {
    e.Some? && e.value.Keys == errs.Keys && forall k | k in errs :: e.value[k] == Some(errs[k].message)
  }

  /** Contacts listed newest first. */
  ghost predicate NewestFirst(cs: seq<Contact>) {
    forall i, j | 0 <= i < j < |cs| :: cs[i].createdAt >= cs[j].createdAt
  }

  /** No two listed contacts share an id. */
  ghost predicate DistinctIds(cs: seq<Contact>) {
    forall i, j | 0 <= i < j < |cs| :: cs[i].id != cs[j].id
  }

  /** Where a contact goes in a list kept newest first: after every strictly newer one. */
  function InsertionIndex(c: Contact, cs: seq<Contact>): (k: nat)
    ensures k <= |cs|
    ensures forall i :: 0 <= i < k ==> cs[i].createdAt > c.createdAt
    ensures k < |cs| ==> cs[k].createdAt <= c.createdAt
    decreases |cs|
  {
    if cs == [] || cs[0].createdAt <= c.createdAt then 0 else 1 + InsertionIndex(c, cs[1..])
  }

  /** Inserting at index `k` shifts what follows by one. */
  lemma InsertAt(cs: seq<Contact>, k: nat, c: Contact)
    requires k <= |cs|
    ensures var r := cs[..k] + [c] + cs[k..];
      && |r| == |cs| + 1
      && (forall i :: 0 <= i < k ==> r[i] == cs[i])
      && r[k] == c
      && (forall i :: k < i <= |cs| ==> r[i] == cs[i - 1])
      && (forall x :: x in r <==> x == c || x in cs)
  {
    var r := cs[..k] + [c] + cs[k..];
    assert cs == cs[..k] + cs[k..];
    forall x ensures x in r <==> x == c || x in cs {
      assert x in cs <==> x in cs[..k] || x in cs[k..];
    }
  }

  /** Inserting at the insertion index keeps a newest-first list newest first. */
  lemma InsertKeepsOrder(c: Contact, cs: seq<Contact>)
    requires NewestFirst(cs)
    ensures NewestFirst(cs[..InsertionIndex(c, cs)] + [c] + cs[InsertionIndex(c, cs)..])
  {
    var k := InsertionIndex(c, cs);
    InsertAt(cs, k, c);
  }

  /** Inserting a contact with a new id keeps the ids distinct. */
  lemma InsertKeepsIdsDistinct(c: Contact, cs: seq<Contact>, k: nat)
    requires k <= |cs| && DistinctIds(cs)
    requires forall x | x in cs :: x.id != c.id
    ensures DistinctIds(cs[..k] + [c] + cs[k..])
  {
    InsertAt(cs, k, c);
  }

  /** Every contact is filed under its own id. */
  ghost predicate KeyedById(records: map<Id, Contact>) {
    forall id | id in records :: records[id].id == id
  }

  /**
   * `find().sort({ createdAt: -1 })`: every contact of the collection exactly once,
   * newest first. Each contact is inserted after every strictly newer one already placed.
   */
  method SortNewestFirst(records: map<Id, Contact>) returns (all: seq<Contact>)
    requires KeyedById(records)
    ensures |all| == |records|
    ensures forall c :: c in all <==> c in records.Values
    ensures DistinctIds(all)
    ensures NewestFirst(all)
  {
    var pending := records.Keys;
    all := [];
    ghost var done: set<Id> := {};
    while pending != {}
      invariant pending + done == records.Keys && pending !! done
      invariant |all| == |done|
      invariant forall c :: c in all <==> c.id in done && records[c.id] == c
      invariant DistinctIds(all)
      invariant NewestFirst(all)
      decreases pending
    {
      var id :| id in pending;
      var c := records[id];
      var k := InsertionIndex(c, all);
      InsertKeepsOrder(c, all);
      InsertKeepsIdsDistinct(c, all, k);
      InsertAt(all, k, c);
      all := all[..k] + [c] + all[k..];
      pending := pending - {id};
      done := done + {id};
    }
    assert done == records.Keys;
    forall c ensures c in all <==> c in records.Values {
      if c in records.Values {
        var id :| id in records && records[id] == c;
      }
    }
  }

  /** `findOne({ email, _id: { $ne: except } })` over a collection finds a contact. */
  predicate Taken(records: map<Id, Contact>, email: string, except: Option<Id>) {
    exists id | id in records :: records[id].email == email && except != Some(id)
  }

  /** A contact filed under `id`, in a collection whose next id and clock are given. */
  ghost predicate Filed(c: Contact, id: Id, nextId: Id, clock: nat) {
    c.id == id && id < nextId && WellFormed(c) && c.updatedAt <= clock
  }

  /**
   * The collection's invariant: each contact is filed under its own id, below the next id
   * to hand out, is well formed and was last written no later than the clock; and no two
   * contacts share an email.
   */
  ghost predicate Inv(records: map<Id, Contact>, nextId: Id, clock: nat) {
    && (forall id | id in records :: Filed(records[id], id, nextId, clock))
    && UniqueEmails(records)
  }

  lemma InvKeyedById(records: map<Id, Contact>, nextId: Id, clock: nat)
    requires Inv(records, nextId, clock)
    ensures KeyedById(records)
  {
    forall id | id in records ensures records[id].id == id {
      assert Filed(records[id], id, nextId, clock);
    }
  }

  /** Writing a contact under `id` keeps emails unique when no other contact has its email. */
  lemma WriteKeepsUnique(records: map<Id, Contact>, id: Id, c: Contact)
    requires UniqueEmails(records)
    requires !Taken(records, c.email, Some(id))
    ensures UniqueEmails(records[id := c])
  {
    var r := records[id := c];
    forall a, b | a in r && b in r && a != b ensures r[a].email != r[b].email {
      if a == id {
        assert r[b] == records[b] && Some(id) != Some(b);
      } else if b == id {
        assert r[a] == records[a] && Some(id) != Some(a);
      } else {
        assert r[a] == records[a] && r[b] == records[b];
      }
    }
  }

  /** Inserting a well-formed contact under the next id, with an email not on file, keeps the invariant. */
  lemma InsertKeepsInv(records: map<Id, Contact>, nextId: Id, clock: nat, c: Contact)
    requires Inv(records, nextId, clock)
    requires c.id == nextId && WellFormed(c) && c.updatedAt <= clock + 1
    requires !Taken(records, c.email, None)
    ensures nextId !in records
    ensures Inv(records[nextId := c], nextId + 1, clock + 1)
  {
    var r := records[nextId := c];
    forall id | id in r ensures Filed(r[id], id, nextId + 1, clock + 1) {
      if id != nextId {
        assert Filed(records[id], id, nextId, clock);
      }
    }
    WriteKeepsUnique(records, nextId, c);
  }

  /** A stored contact with its four paths replaced by `doc` and its update time set to `t`. */
  function Rewritten(c: Contact, doc: Fields, t: nat): (r: Contact)
    ensures FieldsOf(r) == doc
    ensures r.id == c.id && r.createdAt == c.createdAt && r.updatedAt == t
  {
    c.(name := doc.name, email := doc.email, phone := doc.phone, company := doc.company, updatedAt := t)
  }

  /** Replacing the paths of a contact by valid ones that no other contact's email shares keeps the invariant. */
  lemma ReplaceKeepsInv(records: map<Id, Contact>, nextId: Id, clock: nat, id: Id, doc: Fields)
    requires Inv(records, nextId, clock)
    requires id in records && Normal(doc) && Passes(doc)
    requires !Taken(records, doc.email, Some(id))
    ensures Inv(records[id := Rewritten(records[id], doc, clock + 1)], nextId, clock + 1)
  {
    var c := Rewritten(records[id], doc, clock + 1);
    var r := records[id := c];
    assert Filed(records[id], id, nextId, clock);
    assert Filed(c, id, nextId, clock + 1);
    forall k | k in r ensures Filed(r[k], k, nextId, clock + 1) {
      if k != id {
        assert Filed(records[k], k, nextId, clock);
      }
    }
    WriteKeepsUnique(records, id, c);
  }

  /** Removing a contact keeps the invariant. */
  lemma RemoveKeepsInv(records: map<Id, Contact>, nextId: Id, clock: nat, id: Id)
    requires Inv(records, nextId, clock)
    ensures Inv(records - {id}, nextId, clock)
  {
  }

  /** The body a client sends back to save a stored contact as it is. */
  function Resend(c: Contact): Input {
    Input(Some(c.name), Some(c.email), Some(c.phone), Some(c.company))
  }

  /**
   * A stored contact sent back as it is passes every check of the update handler: the
   * required-field pre-check, both duplicate checks (which skip the contact itself), and
   * the schema; and normalising it gives back its own fields.
   */
  lemma StoredPassesChecks(records: map<Id, Contact>, nextId: Id, clock: nat, id: Id)
    requires Inv(records, nextId, clock)
    requires id in records
    ensures var c := records[id];
      && HasRequired(Resend(c))
      && !Taken(records, Lower(c.email), Some(id))
      && Normalize(Resend(c)) == FieldsOf(c)
      && Validate(FieldsOf(c)) == map[]
      && !Taken(records, c.email, Some(id))
  {
    var c := records[id];
    assert Filed(c, id, nextId, clock);
    ValidateEmptyIff(FieldsOf(c));
    LowerNormalizes(c.email);
    CastOfNormal(FieldsOf(c));
    assert Normalize(Resend(c)) == FieldsOf(c);
  }

  /** The outcome of one write in the store. */
  datatype WriteResult =
    | Written(contact: Contact)
    | Rejected(errors: map<string, ValidatorError>)
    | DuplicateKey
    | NoMatch

  class ContactService {
    var records: map<Id, Contact>
    var nextId: Id
    var clock: nat

    ghost predicate Valid()
      reads this
    {
      Inv(records, nextId, clock)
    }

    constructor ()
      ensures Valid()
      ensures records == map[] && nextId == 0 && clock == 0
    {
      records := map[];
      nextId := 0;
      clock := 0;
    }

    /** `findOne({ email, _id: { $ne: except } })` finds a contact. */
    predicate EmailTaken(email: string, except: Option<Id>)
      reads this
    {
      Taken(records, email, except)
    }

    /**
     * The collection's insert: the document is written under the next id, with creation and
     * update time both set to the advanced clock.
     */
    method Insert(doc: Fields) returns (c: Contact)
      requires Valid()
      requires Normal(doc) && Passes(doc) && !EmailTaken(doc.email, None)
      modifies this
      ensures Valid()
      ensures c == Contact(old(nextId), doc.name, doc.email, doc.phone, doc.company, clock, clock)
      ensures old(nextId) !in old(records)
      ensures records == old(records)[old(nextId) := c]
      ensures nextId == old(nextId) + 1 && clock == old(clock) + 1
    {
      c := Contact(nextId, doc.name, doc.email, doc.phone, doc.company, clock + 1, clock + 1);
      assert FieldsOf(c) == doc;
      InsertKeepsInv(records, nextId, clock, c);
      records, nextId, clock := records[nextId := c], nextId + 1, clock + 1;
    }

    /**
     * The collection's update of one document: the four paths are replaced, the update time
     * set to the advanced clock, and the id and creation time kept.
     */
    method Replace(id: Id, doc: Fields) returns (c: Contact)
      requires Valid()
      requires id in records
      requires Normal(doc) && Passes(doc) && !EmailTaken(doc.email, Some(id))
      modifies this
      ensures Valid()
      ensures c == Rewritten(old(records)[id], doc, clock)
      ensures records == old(records)[id := c]
      ensures nextId == old(nextId) && clock == old(clock) + 1
    {
      ReplaceKeepsInv(records, nextId, clock, id, doc);
      c := Rewritten(records[id], doc, clock + 1);
      records, clock := records[id := c], clock + 1;
    }

    /** The collection's removal of one document. */
    method Remove(id: Id)
      requires Valid()
      modifies this
      ensures Valid()
      ensures records == old(records) - {id}
      ensures nextId == old(nextId) && clock == old(clock)
    {
      RemoveKeepsInv(records, nextId, clock, id);
      records := records - {id};
    }

    /**
     * `new Contact(data).save()`: the setters run, then the validators, then the unique
     * index on email; only then is the contact written with a fresh id, and creation and
     * update time both set to the current time.
     */
    method Save(data: Fields) returns (out: WriteResult)
      requires Valid()
      modifies this
      ensures Valid()
      ensures var doc := Cast(data);
        && (Validate(doc) != map[] ==> out == Rejected(Validate(doc)) && unchanged(this))
        && (Validate(doc) == map[] && old(EmailTaken(doc.email, None)) ==> out == DuplicateKey && unchanged(this))
        && (Validate(doc) == map[] && !old(EmailTaken(doc.email, None)) ==>
              && out == Written(Contact(old(nextId), doc.name, doc.email, doc.phone, doc.company, clock, clock))
              && old(nextId) !in old(records)
              && records == old(records)[old(nextId) := out.contact]
              && nextId == old(nextId) + 1
              && clock == old(clock) + 1)
    {
      var doc := Cast(data);
      var errs := Validate(doc);
      if errs != map[] {
        return Rejected(errs);
      }
      if EmailTaken(doc.email, None) {
        return DuplicateKey;
      }
      CastIsNormal(data);
      ValidateEmptyIff(doc);
      var c := Insert(doc);
      out := Written(c);
    }

    /**
     * `findByIdAndUpdate(id, data, { new: true, runValidators: true })`: the update is cast
     * by the setters and checked by the validators before the store looks for the id; the
     * unique index is checked against every other contact; on success the four paths are
     * replaced and the update time refreshed, and the updated contact is returned.
     */
    method FindByIdAndUpdate(id: Id, data: Fields) returns (out: WriteResult)
      requires Valid()
      modifies this
      ensures Valid()
      ensures var doc := Cast(data);
        && (Validate(doc) != map[] ==> out == Rejected(Validate(doc)) && unchanged(this))
        && (Validate(doc) == map[] && id !in old(records) ==> out == NoMatch && unchanged(this))
        && (Validate(doc) == map[] && id in old(records) && old(EmailTaken(doc.email, Some(id))) ==>
              out == DuplicateKey && unchanged(this))
        && (Validate(doc) == map[] && id in old(records) && !old(EmailTaken(doc.email, Some(id))) ==>
              && out == Written(old(records)[id].(name := doc.name, email := doc.email, phone := doc.phone,
                                                  company := doc.company, updatedAt := clock))
              && records == old(records)[id := out.contact]
              && nextId == old(nextId)
              && clock == old(clock) + 1)
    {
      var doc := Cast(data);
      var errs := Validate(doc);
      if errs != map[] {
        return Rejected(errs);
      }
      if id !in records {
        return NoMatch;
      }
      if EmailTaken(doc.email, Some(id)) {
        return DuplicateKey;
      }
      CastIsNormal(data);
      ValidateEmptyIff(doc);
      var c := Replace(id, doc);
      out := Written(c);
    }

    /** `findByIdAndDelete(id)`: removes the contact and returns it as it was, if there is one. */
    method FindByIdAndDelete(id: Id) returns (out: Option<Contact>)
      requires Valid()
      modifies this
      ensures Valid()
      ensures id in old(records) ==> out == Some(old(records)[id]) && records == old(records) - {id}
      ensures id !in old(records) ==> out == None && unchanged(this)
      ensures nextId == old(nextId) && clock == old(clock)
    {
      if id !in records {
        return None;
      }
      out := Some(records[id]);
      Remove(id);
    }

    /** GET `/`: every contact, newest first, with their number as `count`. */
    method List() returns (r: Response)
      requires Valid()
      ensures r.status == 200 && r.success && r.message == None && r.errors == None
      ensures r.body.Many? && r.body.count == |r.body.contacts| == |records|
      ensures forall c :: c in r.body.contacts <==> c in records.Values
      ensures DistinctIds(r.body.contacts)
      ensures NewestFirst(r.body.contacts)
    {
      InvKeyedById(records, nextId, clock);
      var all := SortNewestFirst(records);
      r := Response(200, true, None, Many(all, |all|), None);
    }

    /** GET `/:id`: the contact with that id, or 404. */
    method Get(id: Id) returns (r: Response)
      ensures id in records ==> r == Response(200, true, None, One(records[id]), None)
      ensures id !in records ==> r == NotFound()
    {
      if id !in records {
        return NotFound();
      }
      r := Response(200, true, None, One(records[id]), None);
    }

    /**
     * POST `/`. A body that fails the required-field pre-check gets 400 with all three
     * fields in `errors`. A lower-cased, untrimmed email already on file gets 400
     * "duplicate". Otherwise the normalised fields are saved: a schema failure gets 400
     * with every failing path's message, a clash with the unique index gets the same 400
     * "duplicate" as the pre-check, and success gets 201 with the new contact.
     */
    method Create(input: Input) returns (r: Response)
      requires Valid()
      modifies this
      ensures Valid()
      ensures !HasRequired(input) ==>
        && r == Response(400, false, Some(RequiredFieldsMessage), NoData, Some(MissingFieldErrors(input)))
        && unchanged(this)
      ensures HasRequired(input) && old(EmailTaken(Lower(input.email.value), None)) ==>
        r == Failure(DuplicateMessage) && unchanged(this)
      ensures HasRequired(input) && !old(EmailTaken(Lower(input.email.value), None)) ==>
        var doc := Normalize(input);
        && (Validate(doc) != map[] ==>
              && r.status == 400 && !r.success && r.message == Some(ValidationMessage) && r.body == NoData
              && ReportsAll(r.errors, Validate(doc))
              && unchanged(this))
        && (Validate(doc) == map[] && old(EmailTaken(doc.email, None)) ==>
              r == Failure(DuplicateMessage) && unchanged(this))
        && (Validate(doc) == map[] && !old(EmailTaken(doc.email, None)) ==>
              && r.status == 201 && r.success && r.message == Some(CreatedMessage) && r.errors == None
              && r.body == One(Contact(old(nextId), doc.name, doc.email, doc.phone, doc.company, clock, clock))
              && old(nextId) !in old(records)
              && records == old(records)[old(nextId) := r.body.contact]
              && |records| == |old(records)| + 1
              && clock > old(clock))
    {
      if !HasRequired(input) {
        return Response(400, false, Some(RequiredFieldsMessage), NoData, Some(MissingFieldErrors(input)));
      }
      if EmailTaken(Lower(input.email.value), None) {
        return Failure(DuplicateMessage);
      }
      var data := Normalize(input);
      NormalizeIsStable(input);
      var saved := Save(data);
      match saved {
        case Rejected(errs) =>
          var errors := CollectErrors(errs);
          r := Response(400, false, Some(ValidationMessage), NoData, Some(errors));
        case DuplicateKey =>
          r := Failure(DuplicateMessage);
        case Written(c) =>
          r := Response(201, true, Some(CreatedMessage), One(c), None);
        case NoMatch =>
          assert false;
      }
    }

    /**
     * PUT `/:id`. A body that fails the required-field pre-check gets 400 without
     * `errors`; an email (lower-cased, untrimmed) held by another contact gets 400; only
     * then does the store see the update: a schema failure gets 500, a missing id 404, a
     * clash with the unique index 500, and success 200 with the updated contact.
     */
    method Update(id: Id, input: Input) returns (r: Response)
      requires Valid()
      modifies this
      ensures Valid()
      ensures !HasRequired(input) ==> r == Failure(RequiredFieldsMessage) && unchanged(this)
      ensures HasRequired(input) && old(EmailTaken(Lower(input.email.value), Some(id))) ==>
        r == Failure(OtherDuplicateMessage) && unchanged(this)
      ensures HasRequired(input) && !old(EmailTaken(Lower(input.email.value), Some(id))) ==>
        var doc := Normalize(input);
        && (Validate(doc) != map[] ==>
              r == Response(500, false, Some(UpdateFailedMessage), NoData, None) && unchanged(this))
        && (Validate(doc) == map[] && id !in old(records) ==> r == NotFound() && unchanged(this))
        && (Validate(doc) == map[] && id in old(records) && old(EmailTaken(doc.email, Some(id))) ==>
              r == Response(500, false, Some(UpdateFailedMessage), NoData, None) && unchanged(this))
        && (Validate(doc) == map[] && id in old(records) && !old(EmailTaken(doc.email, Some(id))) ==>
              && r.status == 200 && r.success && r.message == Some(UpdatedMessage) && r.errors == None
              && r.body == One(old(records)[id].(name := doc.name, email := doc.email, phone := doc.phone,
                                                 company := doc.company, updatedAt := clock))
              && records == old(records)[id := r.body.contact]
              && r.body.contact.id == id
              && r.body.contact.createdAt == old(records)[id].createdAt
              && r.body.contact.updatedAt > old(records)[id].updatedAt
              && nextId == old(nextId))
    {
      if !HasRequired(input) {
        return Failure(RequiredFieldsMessage);
      }
      if EmailTaken(Lower(input.email.value), Some(id)) {
        return Failure(OtherDuplicateMessage);
      }
      var data := Normalize(input);
      NormalizeIsStable(input);
      var updated := FindByIdAndUpdate(id, data);
      match updated {
        case Rejected(_) =>
          r := Response(500, false, Some(UpdateFailedMessage), NoData, None);
        case DuplicateKey =>
          r := Response(500, false, Some(UpdateFailedMessage), NoData, None);
        case NoMatch =>
          r := NotFound();
        case Written(c) =>
          r := Response(200, true, Some(UpdatedMessage), One(c), None);
      }
    }

    /** DELETE `/:id`: removes the contact and returns it as it was, or 404. */
    method Delete(id: Id) returns (r: Response)
      requires Valid()
      modifies this
      ensures Valid()
      ensures id in old(records) ==>
        && r == Response(200, true, Some(DeletedMessage), One(old(records)[id]), None)
        && records == old(records) - {id}
        && nextId == old(nextId) && clock == old(clock)
      ensures id !in old(records) ==> r == NotFound() && unchanged(this)
    {
      var deleted := FindByIdAndDelete(id);
      if deleted.None? {
        return NotFound();
      }
      r := Response(200, true, Some(DeletedMessage), One(deleted.value), None);
    }
  }
}
