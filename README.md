# Contact record service: a verified model

This project models the contact directory's backend and the search filter of its contact list.

- **`ContactRoutes`**: the five HTTP handlers of `backend/routes/contactRoutes.js`. They are list, get, create, update and delete, running over an in-memory collection. The module covers:
  - the required-field pre-check on the raw body;
  - the duplicate-email pre-check;
  - the normalised object literal the handlers build;
  - the store's save, update and delete;
  - the mapping of every outcome to a status code, message, `data` and `errors`.
- **`ContactSchema`**: the schema of `backend/models/Contact.js`. That is the `trim` and `lowercase` setters, the `required`, `maxlength` and `match` validators with their messages, the unique index on email, and the timestamps.
- **`EmailPattern`**: the schema's email expression `^\w+([.-]?\w+)*@\w+([.-]?\w+)*(\.\w{2,3})+$`, as a recognizer that splits at the `@` and before the last `.` group. It is proved equal to a transcription of the expression operator by operator.
- **`Text`**: JavaScript's `trim`, `toLowerCase` and `includes`.
- **`ContactSearch`**: the `contacts.filter(...)` predicate of `frontend/src/components/ContactList.js`.
- **`ContactScenarios`**: a few request sequences that together state what the handlers promise across calls.

The collection is the class `ContactRoutes.ContactService`. The class has three fields:
- a map from id to contact;
- the next id to hand out;
- a clock, a `nat` that advances by one on every successful insert or update and stands in for the store's `Date` time stamps.

Its invariant `Valid()` holds before and after every handler. It says that:
- each contact is filed under its own id, below the next id;
- each contact is in stored form: trimmed, with email lower-cased;
- each contact passes every validator;
- each contact has `createdAt <= updatedAt <= clock`;
- no two contacts share an email.

The store's own operations are methods of the class. `Save` stands for `new Contact(data).save()`, and `FindByIdAndUpdate` and `FindByIdAndDelete` for the two mongoose calls. They run the setters, the validators and the unique index in the order mongoose does.

The handlers keep the code's own order of checks.

- **Create.** The checks run in this order:
  1. the falsy pre-check on the raw body, giving 400 with all three fields in `errors`;
  2. a lookup of `email.toLowerCase()`, lower-cased but not trimmed, giving 400 "duplicate";
  3. normalisation and `save()`. A schema failure gives 400 with every failing path's message. A unique-index clash gives the same 400 "duplicate". Success gives 201.
- **Update.** The checks run in this order:
  1. the pre-check, giving 400 without `errors`;
  2. the lookup of another contact with the lower-cased email, giving 400;
  3. `findByIdAndUpdate` with `runValidators`. Here the catch-all turns a schema failure into 500 and a unique-index clash into 500. A missing id gives 404. Success gives 200.

Two behaviours of the code are kept as written, though a reader might expect otherwise:
- an update that fails validation gets 500, not 400;
- a create or update whose email differs from another contact's only in surrounding whitespace passes the pre-check; if the rest of the document is valid, the unique index stops it, with 400 for create and 500 for update.

## Model

| member | source | states |
|---|---|---|
| Text.IsSpace | backend/models/Contact.js:7 | the characters `trim` removes: ECMAScript's WhiteSpace and LineTerminator code points |
| Text.Trim | backend/routes/contactRoutes.js:90 | `trim` keeps neither a leading nor a trailing whitespace character and never lengthens the string |
| Text.TrimSlice | backend/models/Contact.js:7 | what `trim` keeps is a contiguous slice of the input, and everything before and after that slice is whitespace |
| Text.TrimOfTrimmed | backend/models/Contact.js:7 | a string with no whitespace at either end is left unchanged by `trim` |
| Text.TrimIdempotent | backend/models/Contact.js:7 | trimming twice is trimming once |
| Text.TrimEmptyIffAllSpace | backend/models/Contact.js:7 | `trim` yields `''` exactly when every character is whitespace |
| Text.Lower | backend/routes/contactRoutes.js:91 | `toLowerCase` keeps the length and lowers each character in place |
| Text.LowerChar | backend/models/Contact.js:15 | an ASCII capital becomes the small letter 32 code points up; every other character is kept |
| Text.LowerNormalizes | backend/models/Contact.js:15 | lower-casing leaves no capital, fixes strings without one, and is idempotent |
| Text.LowerCharSpace | backend/models/Contact.js:14-15 | lower-casing neither creates nor removes whitespace |
| Text.LowerTrimCommute | backend/routes/contactRoutes.js:91 | `s.trim().toLowerCase()` equals lower-casing first and trimming after, so the handler's order and the setters' order agree |
| Text.LowerSlice | backend/routes/contactRoutes.js:91 | lower-casing a slice is slicing the lower-cased string |
| Text.LowerKeepsTrimmed | backend/models/Contact.js:14-15 | lower-casing keeps a trimmed string trimmed |
| Text.Contains | frontend/src/components/ContactList.js:23-26 | `includes`: the term is a prefix of some suffix of the string |
| Text.ContainsIff | frontend/src/components/ContactList.js:23 | `includes` holds exactly when the term occurs at some index |
| Text.ContainsHasChars | frontend/src/components/ContactList.js:25 | a string that includes a term holds every character of the term |
| Text.ContainsEmpty | frontend/src/components/ContactList.js:11 | every string includes `''` |
| EmailPattern.IsWordChar | backend/models/Contact.js:16 | `\w` without the `u` flag: ASCII letters, digits and `_` |
| EmailPattern.IsSep | backend/models/Contact.js:16 | the optional separator class `[.-]` |
| EmailPattern.Matches | backend/models/Contact.js:16 | the recognizer: a dotted local part, one `@`, and a dotted domain ending in `.` and two or three word characters |
| EmailPattern.RegexMatches | backend/models/Contact.js:16 | the expression transcribed operator by operator: `\w+`, `([.-]?\w+)*`, `@`, and `(\.\w{2,3})+`, anchored at both ends |
| EmailPattern.MatchesOneAt | backend/models/Contact.js:16 | an accepted email holds exactly one `@` |
| EmailPattern.MatchesStartsWithWord | backend/models/Contact.js:16 | an accepted email starts with a word character |
| EmailPattern.MatchesEndsWithTld | backend/models/Contact.js:16 | an accepted email ends with `.` and two or three word characters |
| EmailPattern.MatchesIsTrimmed | backend/models/Contact.js:16 | an accepted email has no whitespace at either end |
| EmailPattern.DottedChars | backend/models/Contact.js:16 | a `\w+([.-]?\w+)*` string holds only word characters and separators, and starts and ends with a word character |
| EmailPattern.DomainChars | backend/models/Contact.js:16 | an accepted domain holds only word characters and separators |
| EmailPattern.LabelIffDotted | backend/models/Contact.js:16 | the recognizer's dotted form accepts exactly the strings of `\w+([.-]?\w+)*` |
| EmailPattern.DomainIffRegex | backend/models/Contact.js:16 | splitting off only the last `\.\w{2,3}` group accepts exactly the strings of `\w+([.-]?\w+)*(\.\w{2,3})+` |
| EmailPattern.MatchesIffRegex | backend/models/Contact.js:16 | the recognizer accepts exactly the strings the whole expression matches |
| ContactSchema.Normal | backend/models/Contact.js:7-26 | the stored form the `trim` and `lowercase` setters produce: every path trimmed, email without a capital |
| ContactSchema.Cast | backend/models/Contact.js:4-29 | the setters: `trim` on every path and `lowercase` on email |
| ContactSchema.RuleFails | backend/models/Contact.js:4-29 | what each validator rejects: `required` the empty string, `maxlength` a longer string, `match` a non-empty string the pattern rejects |
| ContactSchema.Passes | backend/models/Contact.js:4-29 | a document every validator accepts |
| ContactSchema.WellFormed | backend/models/Contact.js:4-32 | a stored contact: in stored form, passing every validator, and updated no earlier than created |
| ContactSchema.UniqueEmails | backend/models/Contact.js:13 | the unique index: no two stored contacts share an email |
| ContactSchema.CastIsNormal | backend/models/Contact.js:4-29 | the setters always produce stored form: every path trimmed, email with no capital |
| ContactSchema.CastOfNormal | backend/models/Contact.js:4-29 | the setters change nothing on fields already in stored form |
| ContactSchema.CastIdempotent | backend/models/Contact.js:4-29 | normalising a normalised document changes nothing |
| ContactSchema.FirstFailure | backend/models/Contact.js:4-29 | a path reports nothing exactly when all its validators pass; otherwise it reports the first failing validator in declaration order, under its own name |
| ContactSchema.NameError | backend/models/Contact.js:4-9 | name fails `required` on `''`, then `maxlength` above 100, each with the schema's message |
| ContactSchema.EmailError | backend/models/Contact.js:10-17 | email fails `required` on `''`, then `match` on any other string the pattern rejects |
| ContactSchema.PhoneError | backend/models/Contact.js:18-23 | phone fails `required` on `''`, then `maxlength` above 20 |
| ContactSchema.CompanyError | backend/models/Contact.js:24-29 | company fails only `maxlength` above 100, so `''` passes |
| ContactSchema.Entry | backend/models/Contact.js:4-29 | a path's entry in the error map is present exactly when the path failed, and holds its error |
| ContactSchema.Validate | backend/models/Contact.js:4-29 | every failing path is reported at once, under its own name, with its first failing validator's message, and no other key appears |
| ContactSchema.ValidateEmptyIff | backend/models/Contact.js:4-29 | validation reports nothing exactly when name and phone are non-empty and within 100 and 20 characters, the email matches, and company is within 100 |
| ContactRoutes.NotFound | backend/routes/contactRoutes.js:37-40 | the 404 body `{ success: false, message: 'Contacto no encontrado' }`, also sent at lines 184-187 and 215-218 |
| ContactRoutes.Failure | backend/routes/contactRoutes.js:150-154 | a 400 body with `success: false`, a message and no `errors`, as also sent at lines 82-85, 128-131 and 164-167 |
| ContactRoutes.Truthy | backend/routes/contactRoutes.js:65 | JavaScript truthiness of a body field: present, not `null`, and not `''` |
| ContactRoutes.HasRequired | backend/routes/contactRoutes.js:150 | the pre-check `name && email && phone` on the raw body |
| ContactRoutes.Taken | backend/routes/contactRoutes.js:158-161 | `findOne({ email, _id: { $ne: id } })` finds a contact: some stored contact other than the excluded one has that email |
| ContactRoutes.Inv | backend/models/Contact.js:13 | the collection invariant: every contact filed under its own id below the next id, well formed, written no later than the clock, and emails unique |
| ContactRoutes.MissingFieldErrors | backend/routes/contactRoutes.js:65-76 | the create pre-check's `errors` has exactly the keys name, email and phone, with `null` for a truthy field and its message for a missing one |
| ContactRoutes.Normalize | backend/routes/contactRoutes.js:89-94 | the handler's object literal is what the schema's setters make of the body with company defaulted to `''`, and it is in stored form |
| ContactRoutes.NormalizeIsStable | backend/routes/contactRoutes.js:89-99 | the setters run by `save()` change nothing in what the handler already normalised |
| ContactRoutes.BlankNameFailsSchema | backend/routes/contactRoutes.js:65-124 | a whitespace-only name passes the pre-check and is then rejected by the schema's `required` rule with its message |
| ContactRoutes.CollectErrors | backend/routes/contactRoutes.js:113-124 | the `forEach` copies exactly the failing paths into `errors`, each with its validator's message |
| ContactRoutes.NewestFirst | backend/routes/contactRoutes.js:10 | the order `sort({ createdAt: -1 })` promises: no contact is listed before a strictly newer one |
| ContactRoutes.InsertionIndex | backend/routes/contactRoutes.js:10 | the place for a contact in a newest-first list comes after every strictly newer one and before the rest |
| ContactRoutes.InsertAt | backend/routes/contactRoutes.js:10 | inserting at an index shifts the later elements by one and adds exactly the inserted contact |
| ContactRoutes.InsertKeepsOrder | backend/routes/contactRoutes.js:10 | inserting at the insertion index keeps a list newest first |
| ContactRoutes.InsertKeepsIdsDistinct | backend/routes/contactRoutes.js:10 | inserting a contact with a new id keeps the ids distinct |
| ContactRoutes.SortNewestFirst | backend/routes/contactRoutes.js:10 | `find().sort({ createdAt: -1 })` yields every stored contact exactly once, newest first |
| ContactRoutes.InvKeyedById | backend/routes/contactRoutes.js:10 | under the invariant every contact is filed under its own id |
| ContactRoutes.WriteKeepsUnique | backend/models/Contact.js:13 | writing a contact whose email no other contact has keeps emails unique |
| ContactRoutes.InsertKeepsInv | backend/routes/contactRoutes.js:98-99 | inserting a valid, normalised contact under the next id, with an email not on file, keeps the invariant |
| ContactRoutes.Rewritten | backend/routes/contactRoutes.js:177-181 | an update replaces the four paths and the update time, and keeps the id and the creation time |
| ContactRoutes.ReplaceKeepsInv | backend/routes/contactRoutes.js:177-181 | replacing a contact's paths by valid ones no other contact's email shares keeps the invariant |
| ContactRoutes.RemoveKeepsInv | backend/routes/contactRoutes.js:212 | removing a contact keeps the invariant |
| ContactRoutes.StoredPassesChecks | backend/routes/contactRoutes.js:150-181 | a stored contact sent back as it is passes the pre-check, neither duplicate check, and validation, and normalises to itself |
| ContactRoutes.ContactService.Valid | backend/models/Contact.js:13 | the class holds the collection invariant over its three fields |
| ContactRoutes.ContactService.EmailTaken | backend/routes/contactRoutes.js:79 | `findOne` on the current collection, without an excluded id for create and excluding the target for update |
| ContactRoutes.ContactService.constructor | backend/models/Contact.js:3-32 | an empty collection satisfies the invariant |
| ContactRoutes.ContactService.Insert | backend/models/Contact.js:30-32 | the new contact gets the next id and creation and update time both equal to the advanced clock; the collection gains exactly that contact |
| ContactRoutes.ContactService.Replace | backend/models/Contact.js:30-32 | only the target contact changes: the four paths are replaced, the update time refreshed, the id and the creation time kept |
| ContactRoutes.ContactService.Remove | backend/routes/contactRoutes.js:212 | exactly that id leaves the collection |
| ContactRoutes.ContactService.Save | backend/routes/contactRoutes.js:98-99 | `save()` reports the validators' errors, then an email clash, and otherwise writes the contact with a fresh id; a failed save changes nothing |
| ContactRoutes.ContactService.FindByIdAndUpdate | backend/routes/contactRoutes.js:177-181 | the update is validated before the id is looked up: validation errors, then a missing id, then an email some other contact has; otherwise only the target contact changes |
| ContactRoutes.ContactService.FindByIdAndDelete | backend/routes/contactRoutes.js:212 | a present contact is removed and returned as it was; a missing id gives nothing and changes nothing |
| ContactRoutes.ContactService.List | backend/routes/contactRoutes.js:10-18 | 200 with every stored contact exactly once, newest first, and `count` equal to their number |
| ContactRoutes.ContactService.Get | backend/routes/contactRoutes.js:34-46 | 200 with the contact of that id, or 404 when there is none |
| ContactRoutes.ContactService.Create | backend/routes/contactRoutes.js:58-140 | 400 with all three `errors` for a falsy required field, and 400 "duplicate" for a lower-cased email on file, both with the store unchanged; otherwise 400 with every failing path's message, 400 "duplicate" from the unique index, or 201 with the normalised contact, which is then the only addition to the store |
| ContactRoutes.ContactService.Update | backend/routes/contactRoutes.js:143-205 | 400 without `errors` for a falsy field, then 400 for a lower-cased email another contact has, both with the store unchanged; then 500 for a schema failure, 404 for a missing id, 500 for a unique-index clash, or 200 with only that contact changed, its paths normalised, its id and creation time kept and its update time advanced |
| ContactRoutes.ContactService.Delete | backend/routes/contactRoutes.js:208-236 | 200 with the contact exactly as it was and only that id removed, or 404 with the store unchanged |
| ContactScenarios.CreateThenGet | backend/routes/contactRoutes.js:98-107 | a contact that create answered with 201 is then fetched by its id exactly as create returned it |
| ContactScenarios.CreateTwice | backend/routes/contactRoutes.js:79-86 | after a successful create, the same body is refused with the 400 "duplicate" answer, and the store grew by one contact only |
| ContactScenarios.DeleteTwice | backend/routes/contactRoutes.js:212-219 | the first delete succeeds exactly when the id was present, and the second delete of the same id gets 404 |
| ContactScenarios.ResaveUnchanged | backend/routes/contactRoutes.js:158-181 | sending a stored contact back as it is gets 200, because the duplicate check skips the contact itself; only its update time changes |
| ContactSearch.MatchesTerm | frontend/src/components/ContactList.js:22-27 | the filter's predicate: name, email or a truthy company contains the term when both are lower-cased, or the phone contains the term as typed |
| ContactSearch.Filter | frontend/src/components/ContactList.js:22-28 | the filtered list holds exactly the loaded contacts that match the term and is never longer than the loaded list |
| ContactSearch.FilterConcat | frontend/src/components/ContactList.js:22-27 | filtering a concatenation filters each part and keeps their order |
| ContactSearch.FilterOne | frontend/src/components/ContactList.js:22-27 | a single contact is kept exactly when it matches |
| ContactSearch.FilterKeepsMatching | frontend/src/components/ContactList.js:22-27 | a list whose every contact matches is kept as it is, in order |
| ContactSearch.FilterIdempotent | frontend/src/components/ContactList.js:22-28 | filtering the filtered list again with the same term changes nothing |
| ContactSearch.EmptyTermKeepsAll | frontend/src/components/ContactList.js:11-27 | the initial empty term keeps every contact in order |
| ContactSearch.NoCompanyMatchesByOthers | frontend/src/components/ContactList.js:26 | a contact with missing or empty company matches only through name, email or phone |
| ContactSearch.FoldedColumnsIgnoreTermCase | frontend/src/components/ContactList.js:23-26 | name, email and company ignore the case of the term; only the phone sees it as typed |
| ContactSearch.FoldedColumnsIgnoreValueCase | frontend/src/components/ContactList.js:23-26 | name, email and company also ignore the case of the stored value |
| ContactSearch.PhoneIsCaseSensitive | frontend/src/components/ContactList.js:25 | a contact found through its phone can be lost when the term is lower-cased, so the phone column is not case-folded |

## Left out

- Express wiring: routing, CORS, body parsing, logging, the 404 catch-all and server start and shutdown are framework plumbing. The console output of every handler is not modelled either.
- Store-unavailable failures: the 500 answers of list, get and delete (`catch` blocks) and the generic 500 of create come from store errors the model has no counterpart for.
- The `error: error.message` field of 500 responses is not modelled. Its text comes from the driver.
- A malformed id: ids are abstract `nat`s, so the `CastError` a malformed id raises, and the 500 it leads to, never occurs.
- The race between the duplicate pre-check and the insert: handlers run one at a time, and the unique index is checked atomically inside `Save` and `FindByIdAndUpdate`.
- Time stamps are a `nat` clock advanced by one per successful insert or update, not `Date`s. Locale formatting of dates is not modelled.
- Text.Lower: lower-cases ASCII letters only, not the full Unicode case mapping of `toLowerCase`.
- Text.Trim: the whitespace set is ECMAScript's WhiteSpace and LineTerminator as fixed code points. String lengths count code points, not UTF-16 units, so `maxlength` on characters outside the Basic Multilingual Plane differs.
- Body fields are strings, or `None` for a field that is absent or a JSON `null`; the handlers treat those two alike (`!name`, `company ? … : ''`). Numbers, booleans and objects in a JSON body, and their truthiness, are not modelled.
- Query casting: the duplicate pre-checks compare the stored email with `email.toLowerCase()` as written. The model does not apply the schema's setters to query values, which mongoose may do when it casts a filter.
- The schema's `default: ''` for company is never exercised. Both handlers always supply company and turn a falsy one into `''`. `Normalize` models that.
- The two secondary indexes and `toJSON`: they do not change behaviour.
- The regular-expression engine itself: the email pattern is a recognizer proved equal to a transcription of the expression, and backtracking cost is not considered.
- The rest of the frontend: rendering, navigation, toasts, form state and the fetch wrapper around the API are not modelled. Only the search filter is.
- The legacy root-level app, routes and model: they are an earlier version without validation.
- Ties in the list order: contacts with the same `createdAt` may come in any order. The model proves only that the list is sorted with newest first, not which of several equal contacts comes first.
