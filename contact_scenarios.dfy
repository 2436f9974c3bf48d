/**
 * Request sequences against one store, each stating what the handlers promise across
 * several calls.
 */
module ContactScenarios {
  import opened Wrappers
  import opened ContactSchema
  import opened ContactRoutes

  /** A created contact can be fetched by its id, exactly as the create response returned it. */
  method CreateThenGet(s: ContactService, input: Input) returns (created: Response, fetched: Response)
    requires s.Valid()
    modifies s
    ensures s.Valid()
    ensures created.status == 201 ==> created.body.One? && fetched == Response(200, true, None, created.body, None)
  {
    created := s.Create(input);
    if created.status == 201 {
      fetched := s.Get(created.body.contact.id);
    } else {
      fetched := NotFound();
    }
  }

  /**
   * Creating the same body twice: once the first create succeeds, the second gets the 400
   * duplicate answer, whether the pre-check or the unique index catches it, and stores nothing.
   */
  method CreateTwice(s: ContactService, input: Input) returns (first: Response, second: Response)
    requires s.Valid()
    modifies s
    ensures s.Valid()
    ensures first.status == 201 ==> second == Failure(DuplicateMessage)
    ensures first.status == 201 ==> |s.records| == |old(s.records)| + 1
  {
    first := s.Create(input);
    if first.status == 201 {
      assert s.records[first.body.contact.id].email == Normalize(input).email;
    }
    second := s.Create(input);
  }

  /** Deleting twice: the second delete of the same id finds nothing and gets 404. */
  method DeleteTwice(s: ContactService, id: Id) returns (first: Response, second: Response)
    requires s.Valid()
    modifies s
    ensures s.Valid()
    ensures first.status == 200 <==> id in old(s.records)
    ensures second == NotFound()
    ensures s.records == old(s.records) - {id}
  {
    first := s.Delete(id);
    second := s.Delete(id);
  }

  /**
   * Saving a stored contact back unchanged succeeds: the duplicate check skips the contact
   * itself, and only the update time changes.
   */
  method ResaveUnchanged(s: ContactService, id: Id) returns (r: Response)
    requires s.Valid()
    requires id in s.records
    modifies s
    ensures s.Valid()
    ensures r.status == 200
    ensures s.records == old(s.records)[id := old(s.records)[id].(updatedAt := s.clock)]
  {
    var c := s.records[id];
    var input := Resend(c);
    StoredPassesChecks(s.records, s.nextId, s.clock, id);
    r := s.Update(id, input);
  }
}
