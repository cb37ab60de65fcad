# Camp record-keeping: a Dafny model

This project models the record-keeping core of a summer-camp API. The API
keeps three tables:

- **campers**: a name and an age;
- **activities**: a name and a difficulty;
- **signups**: one camper in one activity at one hour of the day.

Every assignment to a camper or a signup field goes through a validator:

- a name is a non-empty `str`;
- an age is an `int` from 8 to 18;
- an hour is an `int` from 0 to 23;
- the two foreign keys must name existing rows.

The HTTP handlers list, create, fetch and patch campers. They also list
and delete activities and create signups. Each handler answers with a
status and a JSON body. That body comes from a serializer that walks the
entity graph. Each model declares exclusion rules so that the walk never
follows the cycle camper → signup → camper (or activity → signup →
activity).

Files:

- `values.dfy` (module `Values`): the decoded request payload. A value is
  an int, a string, a bool, null, or something else (a float, a list, an
  object). `req.get(key)` reads a missing key as null.
- `query.dfy` (module `Query`): what the database provides. It returns
  rows in ascending key order, and it picks the key for a new row (one
  more than the largest key in use).
- `models.py` → `models.dfy` (module `Models`): the rows, the tables, the
  consistency invariant and the validators. It also holds both
  foreign-key validators as the source writes them, the serialization
  rules, and what deleting an activity does to its signups.
- `serializer.dfy` (module `Serializer`): `to_dict(rules=...)` as a walk
  over the tables. At each entity it adds that model's own rules to the
  rules it was handed. At each relationship it passes down the rules that
  start with that relationship's key. A one-key rule such as "-name"
  drops that column. Lemmas give the exact shape of each view. They also prove that, whatever rules a caller adds, the walk ends
  within three levels.
- `app.py` → `app.dfy` (module `App`): the handlers. They are methods and
  functions of a `Store` class with one `map` per table. The two list
  handlers are functions. The other handlers are methods: those that
  write give the whole new state in their postconditions. Each response
  body comes from a small method that calls the serializer and states
  what the body is. A request that fails
  validation, or names a missing row, answers 400 or 404 and leaves every
  table unchanged.

Modelling choices, each following the code:

- **Deleting an activity.** `Activity.signups` (`server/models.py:28`)
  declares no cascade and no delete rule, so the ORM clears the
  `activity_id` of the activity's signups. That clearing is an assignment,
  and `validate_activity_id` (`server/models.py:87-93`) runs on it: it
  finds no activity for NULL and hands back an exception object, so the
  commit fails whenever a signup refers to the activity.
  `Models.DeleteActivityAsWritten` and `App.DeleteActivityAsWrittenStatus`
  model that (500, nothing deleted). `Store.DeleteActivity` models the
  evidently intended deletion: the signups stay with a NULL activity key
  (`Models.Detach`). See "## Findings".
- **Signup creation.** Signup creation uses the intended foreign-key
  validators: reject when the row is missing. As written, the
  camper-key validator never finds a camper, so every signup request
  answers 400. See "## Findings".
- **Key allocation.** A new camper or signup gets SQLite's "largest key
  plus one" (1 for an empty table). `Store.Valid()` keeps each counter at
  exactly that value (`Query.NextAfter`), since campers and signups are
  never deleted.
- **List order.** Lists and relationship collections come back in
  ascending key order.

## Model

| member | source | states |
|---|---|---|
| `Models.ValidateName` | server/models.py:48-53 | accepts exactly a string of length at least one, returning that same string; null, numbers, bools and "" are rejected with the name error |
| `Models.ValidateAge` | server/models.py:55-60 | accepts exactly an int (not a bool or float) with 8 <= age <= 18, bounds inclusive, returned unchanged; anything else gets the age error |
| `Models.ValidateTime` | server/models.py:80-85 | accepts exactly an int with 0 <= time <= 23, returned unchanged; anything else gets the time error |
| `Models.ValidateActivityId` | server/models.py:87-93 | corrected validator: accepts exactly an int naming an existing activity, returning that id; otherwise a not-found error that aborts the request |
| `Models.ValidateCamperId` | server/models.py:95-101 | corrected validator: accepts exactly an int naming an existing camper, returning that id; otherwise a not-found error |
| `Models.ValidatorsIdempotent` | server/models.py:48-101 | re-validating a value any validator accepted accepts it again with the same result |
| `Models.ActivityIdAsWritten` | server/models.py:87-93 | as written, the validator yields a column value exactly when the intended one accepts, and otherwise an exception object instead of an error |
| `Models.ActivityIdAsWrittenDoesNotRaise` | server/models.py:87-93 | for a missing activity the intended validator rejects, while the written one hands the ORM an exception object as the column's value |
| `Models.CamperIdAsWrittenRejectsExisting` | server/models.py:95-101 | with its parameters swapped the validator looks up the text "camper_id", so even an existing camper's id yields an exception object, while the intended validator accepts it |
| `Models.AddCamperKeepsConsistent` | server/models.py:48-60 | a camper that passed both validators can be added without breaking the table invariant |
| `Models.AddSignupKeepsConsistent` | server/models.py:80-101 | a signup with a valid hour whose keys name existing rows can be added without breaking the invariant |
| `Models.Get` | server/models.py:89-97 | `query.get(key)` finds a row exactly when the key is an int naming one, and then it is that row |
| `Models.CamperIdAsWritten` | server/models.py:95-101 | as written, the camper-key validator hands back the exception object "Camper not found." for every table and every submitted value |
| `Models.Detach` | server/models.py:28 | after an activity is deleted, signups that referred to it keep their hour and camper and their activity key becomes NULL; all other signups are untouched |
| `Models.DeleteActivityAsWritten` | server/models.py:87-93 | as written, deleting an activity fails (no change) exactly when some signup refers to it, because clearing its key runs the validator on NULL; otherwise only the activity goes |
| `Models.DeleteKeepsConsistent` | server/app.py:103-108 | deleting an activity and detaching its signups keeps every remaining foreign key valid |
| `Query.Ordered` | server/app.py:34 | a table's keys as a query returns them: each key exactly once, strictly ascending |
| `Query.NextKey` | server/models.py:39 | the key for a new row: above every key in use, one more than the largest of them, 1 for an empty table |
| `Query.NextAfterInsert` | server/models.py:39 | once a row is stored under the next key, the next key is one more, so "largest key plus one" holds again |
| `Serializer.SignupsOfCamper` | server/models.py:44 | Camper.signups holds exactly the signups whose camper_id is the camper's, in key order |
| `Serializer.SignupsOfActivity` | server/models.py:28 | Activity.signups holds exactly the signups whose activity_id is the activity's, in key order |
| `Serializer.SerializeCamper` | server/models.py:39-46 | `camper.to_dict(rules)` at positive depth: exactly the columns id, name, age and the key signups that no one-key rule excludes, each column holding the row's value |
| `Serializer.SerializeActivity` | server/models.py:23-30 | `activity.to_dict(rules)` at positive depth: exactly the columns id, name, difficulty and the key signups that no one-key rule excludes |
| `Serializer.SerializeSignups` | server/models.py:28 | a relationship collection serializes to one entry per signup key |
| `Serializer.SerializeSignup` | server/models.py:71-78 | `signup.to_dict(rules)` at positive depth: exactly the four columns and the backrefs camper and activity that no one-key rule excludes, each column holding the row's value |
| `Serializer.CamperSummary` | server/app.py:36 | with "-signups" (plus any caller rules) a camper serializes to exactly the columns those rules leave, with no signups key and no truncation |
| `Serializer.ActivitySummary` | server/app.py:96 | with "-signups" (plus any caller rules) an activity serializes to exactly the columns those rules leave, with no signups key and no truncation |
| `Serializer.SignupView` | server/models.py:78 | for any call rules, a signup serializes to the columns the rules leave plus its camper and activity unless excluded; those two show only their own columns, because "-camper.signups" and "-activity.signups" drop their signups |
| `Serializer.CamperDetail` | server/models.py:44-46 | for any call rules, a camper's output is finite and holds exactly the columns the rules leave; unless "signups" is excluded, entry i is the camper's i-th signup in key order, serialized under the forked rules, and none has the back-reference "camper" ("-signups.camper") |
| `Serializer.ActivityDetail` | server/models.py:28-30 | the mirror of CamperDetail: entry i is the activity's i-th signup, none with the back-reference "activity" ("-signups.activity"); finite for any call rules |
| `Serializer.SignupDetail` | server/models.py:71-78 | for any call rules, a signup's output is finite, holds exactly the columns and backrefs the rules leave, and its nested camper and activity have no signups key |
| `App.NewCamper` | server/app.py:46-49 | a camper is built exactly when the payload's name is a non-empty string and its age an int in 8..18 (a missing field counts as null); the row holds those values and satisfies the invariant |
| `App.PatchRow` | server/app.py:77-78 | a patch succeeds exactly when every given name or age passes its validator; given fields take the submitted values, absent ones keep the old values, and a valid row stays valid |
| `App.PatchIdempotent` | server/app.py:77-78 | applying the same patch to its own result changes nothing further |
| `App.NewSignup` | server/app.py:119-123 | a signup is built exactly when camper_id names a camper, activity_id names an activity and time is an int in 0..23; the row holds those values and its keys are valid |
| `App.PostSignupAsWritten` | server/app.py:116-128 | as written, the handler answers 201 exactly when both foreign-key validators hand back a column value and the hour is valid, and 400 otherwise |
| `App.PostSignupAsWrittenAlwaysFails` | server/app.py:116-128 | as written, POST /signups answers 400 whatever the tables and the payload |
| `App.SignupCounterexample` | server/app.py:116-128 | the request {camper_id 1, activity_id 1, time 9} against camper 1 and activity 1 is accepted by the intended validators and refused as written |
| `App.CamperList` | server/app.py:34-36 | the list comprehension yields one entry per stored camper |
| `App.ActivityList` | server/app.py:94-96 | the list comprehension yields one entry per stored activity |
| `App.CamperListShape` | server/app.py:34-36 | the camper list has one entry per stored camper; each entry is exactly that camper's columns, with no signups key |
| `App.ActivityListShape` | server/app.py:94-96 | the activity list has one entry per stored activity; each entry is exactly that activity's columns, with no signups key |
| `App.SignupCreated` | server/app.py:126 | the 201 answer for a stored signup is exactly its four columns plus "camper" and "activity" holding those rows' columns, with no signups key anywhere |
| `App.CamperSummaryResponse` | server/app.py:52 | `camper.to_dict(rules=("-signups",))` is exactly the camper's columns id, name and age |
| `App.CamperListed` | server/app.py:36 | the list view's "-signups" leaves all of a camper's columns (id, name, age) and nothing else |
| `App.ActivityListed` | server/app.py:96 | the list view's "-signups" leaves all of an activity's columns (id, name, difficulty) and nothing else |
| `App.DetailView` | server/app.py:69 | `camper.to_dict()` holds exactly the columns and "signups"; entry i is the camper's i-th signup shown under "-camper", with its activity's columns |
| `App.InsertCamperKeeps` | server/app.py:46-51 | storing a valid camper under the next key keeps the tables consistent and makes the following key next |
| `App.ReplaceCamperKeeps` | server/app.py:77-79 | overwriting a camper with a valid row keeps the tables consistent and the counters unchanged |
| `App.DeleteActivityAsWrittenStatus` | server/app.py:103-111 | as written: 404 exactly for a missing id, 500 exactly when the activity has signups, 204 exactly when it has none |
| `App.DeleteActivityCounterexample` | server/app.py:103-111 | with one signup on activity 1, the written delete answers 500 and changes nothing, while the intended one keeps the signup with a NULL activity key and consistent tables |
| `App.DeleteActivityKeeps` | server/app.py:104-107 | deleting an activity and detaching its signups keeps the invariant |
| `App.InsertSignupKeeps` | server/app.py:119-125 | storing a linked signup with a valid hour under the next key keeps the invariant and makes the following key next |
| `App.Store.constructor` | server/models.py:20-76 | a store starts from any consistent set of tables, each key counter at the largest key plus one (1 for an empty table) |
| `App.Store.ListCampers` | server/app.py:32-38 | status 200; one summary per stored camper, none with a signups key |
| `App.Store.PostCamper` | server/app.py:41-54 | with a valid name and age, exactly one camper is added under a fresh key and the answer is 201 with its summary (no signups); otherwise 400 and nothing changes; the other tables are untouched and the invariant holds |
| `App.Store.GetCamper` | server/app.py:61-69 | 404 with the error body when the id is absent; otherwise 200 with the full view: the camper's columns plus its signups, entry i being its i-th signup in key order with its columns and its activity's columns and no "camper" key |
| `App.Store.PatchCamper` | server/app.py:71-86 | 404 and no change for an absent id; 400 and the pre-patch row for any invalid field; otherwise the given fields are updated, the rest kept, and 202 with the summary (no signups) |
| `App.Store.ListActivities` | server/app.py:93-98 | status 200; one summary per stored activity, none with a signups key |
| `App.Store.DeleteActivity` | server/app.py:103-111 | the intended deletion: an existing activity is removed (and only it), its signups lose their activity key, and the answer is 204 with an empty body; an absent id gives 404 and changes nothing |
| `App.Store.PostSignup` | server/app.py:116-128 | with an existing camper, an existing activity and an hour in 0..23, exactly one signup is added under the next key and the answer is 201 with exactly its columns, its camper's columns and its activity's columns; otherwise 400 and nothing changes |
| `App.CreateThenGet` | server/app.py:41-69 | creating {"name": "Lee", "age": 10} answers 201 with id, name and age; fetching that id answers 200 with the same fields and signups [] |

## Left out

- The Flask and flask_restful setup, route registration, Migrate, the
  `DB_URI` lookup and `app.run`. These are bootstrap and I/O.
- JSON request parsing. A payload is taken to be a decoded JSON object.
- The SQLAlchemy session. A commit is one atomic update of the maps. A
  request that raises leaves the maps untouched, which matches the
  session being rolled back when the request ends.
- The naming convention of the metadata.
- `__repr__`, the `print` in CampersById.get, and the commented
  instructions at the end of models.py.
- The output format of sqlalchemy_serializer beyond the keys it writes
  and the relationships it follows or skips. Bodies are modelled as
  JSON-like values, not as serialized text. Only exclusion rules ("-a.b")
  are modelled; the library's inclusion rules and `only=` are not, since
  no call in the program uses them.
- App.PatchRow: keys other than `name` and `age` are ignored. The source
  calls `setattr` with any attribute name, which can set unrelated Python
  attributes or the primary key.
- App.Store.DeleteActivity: the store follows the intended deletion, in
  which signups keep a NULL activity key. As written, the program's own
  validator rejects that NULL and the request fails with 500, which
  `App.DeleteActivityAsWrittenStatus` models outside the store.
- Models.Get: a primary-key lookup resolves only an int. The database
  would also match `True`, a float such as `1.0`, or a numeric string
  such as `"1"` against an integer key. That coercion is not modelled.
- Activities are never created by the core. A store starts from seeded
  tables, and the seed script is not part of this model. Activity name
  and difficulty are modelled as a string and an int, although both
  columns accept NULL.
- Serializer.SerializeCamper: the walk carries a depth bound (MaxDepth =
  3). The lemmas show the declared rules always end the walk before that
  bound, for any rules a caller adds. So an unbounded cycle, which would
  exhaust Python's recursion, is not modelled.
- Integer widths: ids, ages and hours are unbounded integers. SQLite's
  64-bit limit is not modelled.

## Findings

| source | as written | input that shows it | evidently intended | confidence | as-written member | corrected member |
|---|---|---|---|---|---|---|
| server/models.py:95-101 | `validate_camper_id(self, camper_id, db_column)` is called with (key, value), so it looks up the text "camper_id". No camper is ever found, so it returns an exception object as the column value, and the commit fails with 400 | camper 1 and activity 1 stored; body {"camper_id": 1, "activity_id": 1, "time": 9} | accept camper 1 and answer 201 with the new signup | high, not executed | `App.SignupCounterexample` | `Models.ValidateCamperId` |
| server/app.py:103-111 | deleting an activity clears the activity key of its signups, an assignment that runs `validate_activity_id` on NULL. It finds no activity and hands back an exception object the UPDATE cannot store, so the commit fails and nothing catches it | activity 1 with one signup referring to it; DELETE /activities/1 | 204: the activity is removed and the signup keeps a NULL activity key (a validator that lets NULL through) | medium, not executed | `App.DeleteActivityCounterexample` | `App.Store.DeleteActivity` |
| server/models.py:87-93 | a missing activity makes the validator return `Exception("Activity not found.")` instead of raising it. The object becomes the column value, and only the commit's failure to store it yields the 400 | body with "activity_id": 99 and no activity 99 | raise, so the assignment itself is rejected | high, not executed | `Models.ActivityIdAsWrittenDoesNotRaise` | `Models.ValidateActivityId` |
