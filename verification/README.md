# Sectors and collaborators: a verified model of the CRUD core

This project models the core of a small Flask and SQLAlchemy service. The
service keeps two tables:

- **sectors**: each sector has a name;
- **collaborators**: each collaborator has a number, a full name, a birth
  date, a salary and an active flag, and belongs to exactly one sector.

The model covers these parts of the service:

- the request validator, `JSONValidator`, with the field and checker tables
  of the two models;
- the sector route handlers: add, list all, list by name fragment, get,
  update and delete;
- the collaborator route handlers: add, list all, list by number range,
  list by name fragment, get, update and delete;
- the store helper (`insert`, `update`, `delete`) that the handlers write
  through.

## Modules

| module | file | models |
|---|---|---|
| `Json` | `json.dfy` | Parsed JSON values. A Python dict is a sequence of (key, value) pairs in iteration order, with no key repeated. It covers `d.get`, `del d[k]`, `d[k] = v`, and `str(n)`. |
| `Http` | `http.dfy` | What a handler returns: a status code and a JSON object or array. An exception that escapes the handler becomes a 500. |
| `Validator` | `validator.dfy` | `check_parameters`, `get_missing_parameters` and `validate_parameter_types`. The two service exceptions are constructors of `Verdict`. |
| `Ordering` | `ordering.dfy` | `ORDER BY` on a text column: binary, code-point order. The sort is proved sorted and a permutation. |
| `SectorModel`, `CollaboratorModel` | `sector_model.dfy`, `collaborator_model.dfy` | The required fields, the checker tables, the rows, the values the constructor records, and what the serializer shows. |
| `Database` | `database.dfy` | Class `Store`: the two tables as fields, the queries the handlers issue, and the three write operations. |
| `SectorMethods`, `CollaboratorMethods` | `sector_methods.dfy`, `collaborator_methods.dfy` | The route handlers. Write handlers are methods on a `Store`. Read handlers are functions of the table they query. |

### The store invariant

The store keeps one invariant, `Store.Valid()`:

- keys are unique within each table;
- every collaborator's `sector_id` is the key of a sector in the table.

Every write method preserves it. For the second clause:

- deleting a sector that a collaborator still references is refused;
- an update always writes back a sector key that exists.

### What the proofs establish

- **Validator.**
  - The missing list holds exactly the absent or null required fields, in declared order.
  - While a field is missing, no checker runs.
  - The type check reports the first failing key in payload order.
  - A key with no checker is its own outcome: `KeyError`.
  - A payload the validator accepts has exactly the required keys, and each value passed its checker.
- **Handlers.** Each write handler states its full outcome for every path:
  - validation failure;
  - duplicate or missing key;
  - missing sector;
  - success.

  On the failure paths the tables are left unchanged. On success the contract gives the new tables exactly, and a new row's key is one more than the largest key of its table (1 for an empty table).
- **Listings.** Each listing is a permutation, or an exact filter, of the table, sorted by name where the route orders. Each returns 404 exactly when it would be empty.
- **Behaviours the model keeps as written:**
  - Add checks for a duplicate using the path key, but stores the body's values.
  - A sector update patches every row with the path name, and echoes the request body.
  - A collaborator update leaves the collaborator in its current sector, whatever `sector_name` the body gives (`CollaboratorMethods.UpdateKeepsSector`). The body's `sector_name` only has to name an existing sector.

### Two consequences of the code worth knowing

- Deleting a sector does not delete its collaborators. The relationship at models/sector_model.py:17 declares no cascade, and `sector_id` is NOT NULL (models/collaborator_model.py:17). So, once the delete call binds its argument (see the second row under "## Findings"), deleting a sector that still has collaborators fails in the database (`IntegrityError`, a 500) and changes nothing. `SectorMethods.Delete` models this failure.
- The missing list is not sorted. validators/json_validator.py:45 builds it from the schema's fields in declared order, and the model keeps that order.

## Model

| member | source | states |
|---|---|---|
| Json.Find | validators/json_validator.py:45 | `d.get(k)`: absent exactly when no pair has the key; otherwise the value stored under it |
| Json.FindAt | validators/json_validator.py:35 | in a dict, the lookup of an entry's key returns that entry's value |
| Json.Without | core/collaborator_methods.py:151 | `del d[k]` on the copy: `k` is gone, every other lookup is unchanged, and no pair is invented |
| Json.Put | core/collaborator_methods.py:152 | `d[k] = v`: `k` maps to `v`, every other lookup is unchanged, and a new key goes last |
| Json.Decimal | core/collaborator_methods.py:27 | `str(n)` of a route number: decimal digits, with no leading zero, whose value is `n` |
| Json.Contains | core/sector_methods.py:60 | `LIKE '%' + needle + '%'` (also core/collaborator_methods.py:95): true exactly when the needle occurs at some offset of the name |
| Json.ContainsExtend | core/collaborator_methods.py:95 | a needle contained in a string stays contained when text is added on either side |
| Json.PythonTypeName | validators/json_validator.py:38 | `type(value)` as printed: `<class '...'>` |
| Json.TypeNameTellsKinds | validators/json_validator.py:38 | two values print the same type name exactly when they are of the same JSON kind |
| Validator.MissingParameters | validators/json_validator.py:44-45 | a field is in the result iff it is required and absent or null; the result keeps the declared order, as a subsequence of the fields |
| Validator.ValidateParameterTypes | validators/json_validator.py:24-41 | valid iff every payload entry has a checker that accepts its value; never reports missing fields |
| Validator.FirstFailure | validators/json_validator.py:33-41 | a failed type check reports the first entry in payload order that fails, and every entry before it passed |
| Validator.CheckParameters | validators/json_validator.py:9-21 | not-enough-parameters iff some required field is absent or null, with a non-empty, exact, order-preserving missing list; valid iff nothing is missing and every entry passes |
| Validator.MissingRunsNoChecker | validators/json_validator.py:10-16 | while a field is missing, the outcome is the missing list, whatever the checkers would answer |
| Validator.NoCheckerSeesNull | validators/json_validator.py:18-19 | once the checkers run, no required field holds null |
| Validator.ValidPayloadKeys | validators/json_validator.py:33-45 | an accepted payload's keys are exactly the required fields, and none holds null |
| Validator.AcceptedField | validators/json_validator.py:33-37 | each required field of an accepted payload is present and non-null, and its checker accepted it |
| Validator.QuotedList | validators/json_validator.py:13 | `str(missing)[1:-1]`: empty exactly for an empty list, and every name appears in it quoted |
| Validator.QuotedAfter | validators/json_validator.py:13 | after any heading, the quoted list still shows every name quoted |
| Validator.ErrorMessage | validators/json_validator.py:13-38 | the message an exception carries names every missing field, or the received and expected types |
| Validator.MessageWording | validators/json_validator.py:13-38 | the missing message contains "parameters are required"; the type message contains "Wrong parameter type" |
| Validator.Rejection | core/sector_methods.py:18-23 | a missing field gives 422 with a Warning; a wrong type gives 422 with an Error; a key with no checker escapes as KeyError |
| Validator.SectorCallAsWritten | core/sector_methods.py:19 | the `object_model=` keyword raises TypeError for every payload; the `object=` keyword returns the verdict |
| Ordering.LexTotal | core/sector_methods.py:44 | any two names are ordered one way or the other by the binary collation |
| Ordering.LexTransitive | core/sector_methods.py:44 | the binary collation is transitive |
| Ordering.SortBy | core/sector_methods.py:44 | `order_by`: the result is sorted by the key and is a permutation of the input |
| SectorModel.SectorSchema | models/sector_model.py:11-34 | the only required field is `name`; its checker is the string checker; the table's keys are the required fields |
| SectorModel.Dump | models/sector_model.py:37-39 | the serializer shows only `name`, holding the row's name |
| SectorModel.DumpAll | core/sector_methods.py:45 | `sectors_schema.dump(rows)`: one dump per row, in the rows' order |
| SectorModel.AcceptedPayload | models/sector_model.py:30-32 | the only payload accepted for a sector is `{"name": <string>}` |
| SectorModel.EmptyBodyMissesName | models/sector_model.py:11 | an empty body is reported as missing `name`, with the required wording |
| SectorModel.NumericNameIsWrongType | models/sector_model.py:31 | a numeric name the string checker rejects is a wrong-type error with the expected wording |
| CollaboratorModel.CollaboratorSchema | models/collaborator_model.py:8-48 | the six required fields in declared order, each with its checker; the table's keys are the required fields |
| CollaboratorModel.AcceptedWellTyped | models/collaborator_model.py:41-48 | an accepted payload holds each field with a value of its column's kind |
| CollaboratorModel.AcceptedPayload | models/collaborator_model.py:8-48 | an accepted payload is well typed and its keys are exactly the six fields |
| CollaboratorModel.DetailsOf | models/collaborator_model.py:19-28 | the constructor records the five column values supplied, unchanged |
| CollaboratorModel.SectorNameOf | core/collaborator_methods.py:30 | `request.json['sector_name']` is the body's string under that key |
| CollaboratorModel.Dump | models/collaborator_model.py:51-55 | serialized output lists the fields in declared order; a row read back has no `sector_name` |
| CollaboratorModel.DumpAll | core/collaborator_methods.py:60 | `collaborators_schema.dump(rows)`: one dump per row, without `sector_name`, in the rows' order |
| CollaboratorModel.RowDumpFinds | core/collaborator_methods.py:117 | a row read back from the table dumps each column key to the row's value, with no `sector_name` and no other key: the content of the get and list responses |
| CollaboratorModel.FreshDumpFinds | core/collaborator_methods.py:49 | a freshly constructed collaborator dumps each column key to its value and `sector_name` to the name it was given, and holds no other key |
| CollaboratorModel.DumpRoundTrip | models/collaborator_model.py:19-28 | reading the request fields back out of a fresh object's dump gives the recorded values |
| CollaboratorModel.DumpOfConstructed | core/collaborator_methods.py:38-49 | the object built from an accepted body serializes to that body, key for key |
| CollaboratorModel.EmptyBodyMissesAll | models/collaborator_model.py:8 | an empty body is missing all six fields, in declared order |
| Database.MaxSectorId | core/database.py:15-17 | the largest sector key, attained by some row, or 0 for an empty table |
| Database.MaxCollaboratorId | core/database.py:15-17 | the largest collaborator key, attained by some row, or 0 for an empty table |
| Database.FindSector | core/sector_methods.py:77 | `filter_by(name=...).first()`: none iff no row has the name; otherwise the first row that has it |
| Database.FindCollaborator | core/collaborator_methods.py:113 | `filter_by(collab_number=...).first()`: none iff no row has the number; otherwise the first row that has it |
| Database.Where | core/collaborator_methods.py:75-76 | `filter(...)`: each row that meets the condition, as often as the table holds it, and no other |
| Database.PatchSector | core/sector_methods.py:107 | a patch never changes a sector's key |
| Database.PatchCollaborator | core/collaborator_methods.py:155 | a patch never changes a collaborator's key |
| Database.DeleteCallAsWritten | core/sector_methods.py:127 | the `the_object=` keyword does not bind the helper's `object` parameter |
| Database.Store.constructor | tests/sector_methods_test.py:21 | an empty store satisfies the invariant |
| Database.Store.InsertSector | core/database.py:15-17 | appends one row with the given name and a key one above the largest existing key; the invariant is kept |
| Database.Store.UpdateSectors | core/database.py:20-22 | patches exactly the rows with the name; keys, other rows and the collaborator table are unchanged |
| Database.Store.DeleteSectorAt | core/database.py:25-27 | removes the row iff no collaborator references it; otherwise nothing changes |
| Database.Store.InsertCollaborator | core/database.py:15-17 | appends one row with the given values and sector, and a key one above the largest existing key; the invariant is kept |
| Database.Store.UpdateCollaborators | core/database.py:20-22 | patches exactly the rows with the number; the invariant is kept when the patch names an existing sector |
| Database.Store.DeleteCollaboratorAt | core/database.py:25-27 | removes exactly that row; the sector table is unchanged |
| SectorMethods.ListAll | core/sector_methods.py:44-48 | 404 iff the table is empty; otherwise every sector, sorted by name, as a permutation of the table |
| SectorMethods.ListFiltered | core/sector_methods.py:58-66 | 404 iff no name contains the needle; otherwise exactly the sectors whose name contains it, sorted by name |
| SectorMethods.Get | core/sector_methods.py:77-80 | 200 iff some sector has the name, with the first such row; otherwise 404 with the not-found message |
| SectorMethods.GetAfterAppend | core/sector_methods.py:77-80 | after a row is appended, a get by its name returns it, unless an earlier row has that name |
| SectorMethods.Add | core/sector_methods.py:18-34 | rejection or 409 leaves the store unchanged; otherwise exactly one row is appended, named by the body, and returned with 200 |
| SectorMethods.Update | core/sector_methods.py:91-109 | rejection or 404 leaves the store unchanged; otherwise every row with the path name takes the body's name, the body is echoed, and a get of the old name is 404 when the name changed |
| SectorMethods.Delete | core/sector_methods.py:121-129 | 404 when absent; IntegrityError when a collaborator references the first match; otherwise that row alone is removed, and a later get is 404 iff no other row had the name |
| SectorMethods.GetAfterRemove | core/sector_methods.py:121-129 | once the first row with a name is removed, a get by that name is 404 iff no other row had the name |
| CollaboratorMethods.ListAll | core/collaborator_methods.py:59-63 | 404 iff the table is empty; otherwise every collaborator, sorted by full name, as a permutation of the table |
| CollaboratorMethods.ListInRange | core/collaborator_methods.py:75-81 | 404 iff no number lies in the range; otherwise exactly the collaborators with lower ≤ number ≤ upper |
| CollaboratorMethods.ListFilteredByName | core/collaborator_methods.py:93-101 | 404 iff no full name contains the needle; otherwise exactly those collaborators, sorted by full name |
| CollaboratorMethods.Get | core/collaborator_methods.py:113-117 | 200 iff some collaborator has the number, with the first such row as read back; otherwise 404 |
| CollaboratorMethods.PatchLookups | core/collaborator_methods.py:148-152 | the patch holds the body's value for every key but `sector_name` (gone) and `sector_id` (the given key) |
| CollaboratorMethods.PatchWritesBody | core/collaborator_methods.py:148-155 | applying the patch writes the body's five column values and the given sector key, and keeps the row's key |
| CollaboratorMethods.Add | core/collaborator_methods.py:20-49 | rejection, a duplicate number or an unknown sector leaves the store unchanged; otherwise one row is appended with the body's values and the found sector, and the response echoes the body key for key |
| CollaboratorMethods.Update | core/collaborator_methods.py:128-133 | rejection leaves the store unchanged; an accepted body leads to the outcome stated by UpdateAccepted |
| CollaboratorMethods.UpdateAccepted | core/collaborator_methods.py:136-157 | 404 for an unknown number or sector, with the store unchanged; otherwise every matching row takes the body's values and the first match's sector key, and the body is echoed |
| CollaboratorMethods.PatchMatching | core/collaborator_methods.py:148-155 | every row with the number takes the body's values and the given sector key; all other rows are unchanged |
| CollaboratorMethods.UpdateKeepsSector | core/collaborator_methods.py:143-152 | after a successful update, the first match keeps its sector key and holds the body's values |
| CollaboratorMethods.Delete | core/collaborator_methods.py:169-176 | 404 when absent; otherwise the first match alone is removed |

## Left out

- HTTP layer: Flask routing, `jsonify` and blueprints are left out. A handler returns a status and a body.
- Flask's `<int:...>` converter is left out. Route numbers are `nat`, so a non-integer path never reaches a handler.
- SQLAlchemy sessions, commits and rollbacks are not modelled. Each write helper is one atomic step on the in-memory tables.
- The failed commit after a refused sector delete is modelled as leaving the tables as they were.
- The surrogate key of a new row is modelled as one more than the largest key in the table (1 for an empty table). This is how SQLite picks a rowid when none is given and the largest rowid is below 2^63 - 1; its random fallback after that is left out.
- Marshmallow is left out. The collaborator handlers call `collaborator_schema.validate`, a foreign library. The model validates collaborator bodies with the service's own validator and the collaborator schema instead.
  - Marshmallow's own error dictionaries are therefore not reproduced.
  - Neither is its acceptance of bodies that lack fields. Such a body would reach the handler's `request.json[...]` lookups.
  - The schema (models/collaborator_model.py:51-55) declares only `Meta.fields`, so marshmallow checks no value types. A body such as `{"collab_number": "TESTE", ...}` passes it and reaches the lookups and the insert. The model answers it with 422 "Wrong parameter type".
  - Marshmallow reports a key outside the fields as a 422 error dict. The model, using the service's validator, lets that key reach the checker lookup and answers with a 500 `KeyError` (`Validator.Rejection`).
- Checker bodies: the type-validator module is not part of this model. Its checkers are a parameter `tv`.
- `Strict(tv)`: the store handlers assume that the string, int and bool checkers accept only their own JSON kind. In particular the int checker is assumed to reject booleans and the bool checker to reject integers, although Python's `isinstance(True, int)` holds; the type-validator module is not part of this model, so this is an assumption about it. The float checker is unconstrained.
- SQL `LIKE`: case folding and the `%`/`_` wildcards inside a needle are left out. The name filters are plain substring containment (`Json.Contains`).
- Integer width: `collab_number`, route numbers and keys are unbounded integers. SQLite stores 64-bit integers, so a `collab_number` of 2^63 or more, in a body or a path, fails in the driver with `OverflowError` (a 500), where the model stores it or looks it up.
- Salary: `current_salary` is kept as the JSON value received. No arithmetic is done on it.
- Concurrency is left out, including the race between the duplicate check and the insert. Each handler runs alone.
- A patch key that is not a column is not modelled. The validator lets through only the declared fields, so none reaches the store.
- Request bodies that are not a JSON object are left out: every handler takes the body as a dict (`Payload`). In the code:
  - an absent or non-JSON body makes `request.json` fail before the handler's own logic;
  - for the sector add and update routes, a JSON array, string, number or null reaches `json_dict.get(field)` (validators/json_validator.py:45), which raises `AttributeError` (a 500);
  - for the collaborator add and update routes, marshmallow answers such a body with a 422 `_schema` error.
- Duplicate keys in a request body are left out. The model's dicts have distinct keys, as the parsed body has.
- Database.PatchSector, Database.PatchCollaborator: a patch entry of the wrong JSON kind leaves its column unchanged. An accepted body never holds one.
- CollaboratorMethods.Add: the serialized response is stated key for key, not in field order. `CollaboratorModel.Dump` states the order.
- `__repr__`, `configure`, `create_app` and `run.py` are out: they carry no behaviour the handlers rely on.
- `exception_handling/my_exceptions.py` is represented only by the `Verdict` constructors.

## Findings

| source | as written | input that shows it | evidently intended | confidence | as-written member | corrected member |
|---|---|---|---|---|---|---|
| core/sector_methods.py:19 | `check_parameters(object_model=Sector, ...)`, here and at line 94, when the parameter is named `object` (validators/json_validator.py:9) | any POST to /sectors/add/x or PUT to /sectors/update/x, e.g. with body `{"name": "A"}`: TypeError, 500 | validate the body against the sector schema (`object=Sector`) | high, not executed | Validator.SectorCallAsWritten | SectorMethods.Add |
| core/sector_methods.py:127 | `database.delete(the_object=sector)`, here and at core/collaborator_methods.py:174, when core/database.py:25 names the parameter `object` (database/database.py:25 names it `the_object`) | DELETE /sectors/delete/x while sector x is already in the table (it cannot be added through the API as written, see the row above): TypeError, 500, nothing deleted | delete the row found | high, not executed | Database.DeleteCallAsWritten | SectorMethods.Delete |
