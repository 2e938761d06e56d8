# Team to-do tracker: the create-or-update engine

This project models the core of a small team / project / to-do-list tracker
built on a document database (MongoDB through mongoengine). It covers that
core's one piece of logic: the create-or-update ("upsert") operations of its
four document classes, `User`, `Team`, `Project` and `TodoList`. It also covers
the soft delete (`Team.deactivate`) and the two filters over the collections.

Each upsert looks a document up by its natural key. It then does one of three things:
- If nothing is found, it builds a new document and saves it.
  `Team`, `Project` and `TodoList` treat a duplicate-key failure (`E11000`) as
  "another writer created it first" and run the lookup again.
- If the document is found but inactive and the caller refuses
  reactivation, it raises `ValidationError`.
- Otherwise it reactivates the document, overwrites its fields in place and
  saves it.

Files:

- `store.dfy`, module `Store`: the abstract document store. A collection is
  a map from record id to record plus the next id. Its unique indexes are a
  `clash` relation that every save enforces. Each save either fails with
  `DuplicateKey` when an index refuses it, or fails with the store's own
  error (`fault`), or succeeds. Every operation exists twice. One copy is a
  pure function (`Find`, `InsertStep`, `UpdateStep`). The other is a method
  of the class `Table<R>`: `Get` reads the table, and `Insert` and `Update`
  change its `rows` and `nextId` in place. Each method's contract ties its
  result and new state to the pure function.
- `documents.dfy`, module `Documents`: the documents and the unique indexes
  they declare: user email and google_id, team name, project (team, name),
  to-do list (project, name). It also holds each upsert as a function from
  the collection before the call to the result and the collection after it.
- `repository.dfy`, module `Repository`: the upserts as the program runs
  them. Each method looks the record up, changes the fetched record field by
  field, saves it, and retries by recursion. Each is proved equal to its
  function in `Documents`. The module also holds `deactivate` and the two filters.
- `properties.dfy`, module `Properties`: the lemmas stating what the upserts promise.
- `scenarios.dfy`, module `Scenarios`: the team tests of `tests/test_documents.py`,
  stated as calls of the `Repository` methods and proved from their contracts.

How the outside world enters the model:
- The store's errors come in as the `fault` parameter. When it is set,
  every save of that call fails with that `OperationError`. This is what the
  test that patches `save` does.
- The concurrent writer of the race test comes in as the `rival`
  parameter. It is a record that another writer saves between the lookup
  that misses and the insert that follows it. The other writer's save obeys
  the same unique indexes.
- The `created_date` default is `datetime.now()`, evaluated once when the
  document class is defined. It comes in as `loadedAt`.
- Users embedded in teams, projects and lists are the uninterpreted type
  `UserRef`. Timestamps are the uninterpreted type `Timestamp`.

In these places the model follows the code, even where the other classes or the docstrings suggest otherwise:
- Retries: the `Team` and `Project` retries drop `new_name` and `reactivate`.
  Only the `TodoList` retry forwards them.
- New records: new projects are saved without team or description, and new
  lists without project.
- Lookups: `Project` and `TodoList` are looked up by name alone. A name
  shared by two records makes that lookup raise `MultipleObjectsReturned`.
- `User` never retries: a conflict on insert reaches the caller.

## Model

| member | source | states |
|---|---|---|
| Store.Find | documents.py:219-221 | `objects.get`: Missing exactly when no record matches; Found gives the one matching record; Ambiguous exactly when two distinct records match |
| Store.InsertStep | documents.py:222-230 | saving a new document keeps the unique indexes; it succeeds exactly when no fault occurred and no record clashes, and then stores exactly that record under the fresh id; it fails with DuplicateKey exactly when no fault occurred and some record clashes; a fault fails it with OtherError carrying the fault's text; a failure changes nothing |
| Store.UpdateStep | documents.py:234-238 | saving a fetched document keeps the unique indexes; it succeeds exactly when no fault occurred and no other record clashes, and then replaces only that record; it fails with DuplicateKey exactly when no fault occurred and another record clashes; a fault fails it with OtherError carrying the fault's text; a failure changes nothing |
| Store.OtherWriter | tests/test_documents.py:66-78 | the other writer's insert keeps the indexes and leaves every existing record as it was; a rival that clashes with nothing is stored under the next id; no rival, or one that clashes, leaves the collection unchanged |
| Store.IdsWhere | documents.py:245-247 | the ids below the bound whose records pass the filter, each once, in ascending order |
| Store.Table.Get | documents.py:219-221 | the lookup method returns what `Find` specifies |
| Store.Table.Insert | documents.py:222-224 | the insert method leaves the table as `InsertStep` specifies and keeps it valid |
| Store.Table.Update | documents.py:234-238 | the update method leaves the table as `UpdateStep` specifies and keeps it valid |
| Documents.UserKeysDistinct | documents.py:30-41 | a collection that keeps the user indexes has no two users with one email and no two with one google_id, and conversely |
| Documents.TeamKeysDistinct | documents.py:201-206 | a collection that keeps the team index has no two teams with one name, and conversely |
| Documents.ProjectKeysDistinct | documents.py:145-152 | a collection that keeps the project index has two projects of one name only in different teams, and conversely |
| Documents.TodoListKeysDistinct | documents.py:94-101 | a collection that keeps the list index has two lists of one name only in different projects, and conversely |
| Documents.NameOr | documents.py:236 | `new_name or name`: the new name when it is given and non-empty, otherwise the looked-up name; it is never empty unless that name is |
| Documents.NewUser | documents.py:18-28 | a new user carries the given google_id, name, email and avatar, is active and authenticated, is not anonymous, and has the load-time creation date |
| Documents.UserUpsert | documents.py:43-67 | User.create_or_update never breaks the email and google_id indexes |
| Documents.TeamUpsert | documents.py:213-239 | Team.create_or_update, retry included, never leaves two teams with one name |
| Documents.TeamDeactivate | documents.py:241-243 | deactivate with no store fault succeeds and changes only the team's flag; with a fault it changes nothing |
| Documents.ProjectUpsert | documents.py:154-185 | Project.create_or_update, retry included, never breaks the (team, name) index |
| Documents.TodoListRefresh | documents.py:123-132 | the found branch of TodoList.create_or_update never breaks the (project, name) index |
| Documents.TodoListUpsert | documents.py:103-132 | TodoList.create_or_update (handler corrected), retry included, never breaks the (project, name) index |
| Documents.TodoListUpsertAsWritten | documents.py:109-111 | TodoList.create_or_update as written never breaks the (project, name) index |
| Repository.CreateOrUpdateUser | documents.py:43-67 | the method's result and new collection are those of `UserUpsert`, and the collection stays valid |
| Repository.CreateOrUpdateTeam | documents.py:213-239 | the method, recursion included, yields the result and collection of `TeamUpsert`; the retry terminates because the key is taken when it starts |
| Repository.Deactivate | documents.py:241-243 | the method yields `TeamDeactivate`'s result; it may modify only the team collection, so projects are untouched |
| Repository.CreateOrUpdateProject | documents.py:154-185 | the method yields the result and collection of `ProjectUpsert` |
| Repository.RefreshTodoList | documents.py:123-132 | the found branch yields the result and collection of `TodoListRefresh` |
| Repository.CreateOrUpdateTodoList | documents.py:103-132 | the method yields the result and collection of `TodoListUpsert` |
| Repository.CreateOrUpdateTodoListAsWritten | documents.py:103-132 | the method as written yields the result and collection of `TodoListUpsertAsWritten` |
| Repository.TeamsForUser | documents.py:245-247 | exactly the teams whose users contain the user, each once, oldest first |
| Repository.ProjectsForTeam | documents.py:187-189 | exactly the projects whose team is the given team, each once, oldest first |
| Properties.UserCreatesWhenUnseen | documents.py:52-58 | unseen google_id and unused email: created = true, and exactly one new, active, authenticated, non-anonymous user carrying the given google_id, name, email and avatar |
| Properties.UserEmailTakenNotRetried | documents.py:55-57 | unseen google_id but a taken email: DuplicateKey reaches the caller and nothing changes |
| Properties.UserRaceNotRetried | documents.py:52-58 | another writer saves the google_id first: DuplicateKey reaches the caller; only the winner's record is added |
| Properties.UserInactiveRefused | documents.py:60-61 | an inactive user with reactivate = false: ValidationError, collection unchanged |
| Properties.UserUpdateFaultPropagates | documents.py:62-66 | a store failure while saving a found user reaches the caller as that OperationError and changes nothing |
| Properties.UserUpdatedInPlace | documents.py:62-67 | a found user keeps its id; no record is added; it is active with the new name, email and avatar; the other fields and records are untouched; created = false |
| Properties.TeamCreatesWhenUnseen | documents.py:221-230 | an unused name: created = true and exactly one new active team with that name and those users |
| Properties.TeamInactiveRefused | documents.py:232-233 | an inactive team with reactivate = false: ValidationError, collection unchanged |
| Properties.TeamUpdateFaultPropagates | documents.py:234-238 | a store failure while saving a found team reaches the caller as that OperationError and changes nothing |
| Properties.TeamUpdatedInPlace | documents.py:234-239 | a found team keeps its id; no record is added; it is active; its name is new_name when that is non-empty and the looked-up name otherwise; its users are replaced; created = false |
| Properties.TeamRenameOntoTakenName | documents.py:236-238 | renaming onto another team's name: DuplicateKey reaches the caller (the update path has no retry) and nothing changes |
| Properties.TeamRetryIgnoresArguments | documents.py:225-227 | once the insert hits a duplicate key, the call's result and collection are the same for every new_name and reactivate, because the retry drops them |
| Properties.TeamRaceRetryFindsWinner | documents.py:222-227 | another writer saves the name first: only the winner's insert succeeds; the retry returns the winner with created = false; because new_name and reactivate are dropped, it keeps its name and is reactivated |
| Properties.TeamRaceConflict | documents.py:222-226 | in the race the other writer's insert succeeds, stored under the next id, and ours then hits the name index |
| Properties.TeamWinnerRefreshed | documents.py:227 | the retry `create_or_update(name, users)` finds the winner and updates it in place: created = false, name kept, users replaced, reactivated, no record added |
| Properties.TeamRetryTakesFoundBranch | documents.py:219-227 | once the name is taken the call adds no record and reports created = false, so the retry recurses at most once |
| Properties.TeamOtherErrorPropagates | documents.py:225-229 | a non-duplicate-key save failure on create reaches the caller unchanged; no record of the caller's is stored; only the other writer's record can be new |
| Properties.TeamCreateThenUpdate | documents.py:213-239 | a second call on the created name yields no second team: created = false on the same id, with the new name and users |
| Properties.TeamDeactivateThenUpsert | documents.py:241-243 | after deactivate only the flag has changed; reactivate = false is then refused and leaves the team as it was; reactivate = true restores it with the new name and users |
| Properties.ProjectCreatesWithoutTeam | documents.py:162-173 | an unused name: created = true and exactly one new active project, saved without team and without description |
| Properties.ProjectInactiveRefused | documents.py:175-176 | the only project of that name is inactive and reactivate = false: ValidationError, collection unchanged |
| Properties.ProjectUpdateFaultPropagates | documents.py:177-184 | a store failure while saving the found project reaches the caller as that OperationError and changes nothing |
| Properties.ProjectUpdatedInPlace | documents.py:177-185 | a found project keeps its id, team and creation date; it is active, renamed, with description and users replaced; created = false |
| Properties.ProjectRetryIgnoresArguments | documents.py:167-170 | once the insert hits a duplicate key, the call's result and collection are the same for every new_name and reactivate, because the retry drops them |
| Properties.ProjectRetryDropsArguments | documents.py:167-170 | another writer saves the key first: the retry returns it with created = false, reactivated and keeping its name, whatever new_name and reactivate were |
| Properties.ProjectRaceConflict | documents.py:164-168 | in the race the other writer's insert succeeds, stored under the next id, and ours then hits the (team, name) index |
| Properties.ProjectWinnerRefreshed | documents.py:169-170 | the retry with default arguments finds the winner and updates it in place: created = false, name and team kept, description and users replaced, reactivated |
| Properties.ProjectNameOnlyLookupAmbiguous | documents.py:162 | two projects of one name (in two teams): the call raises MultipleObjectsReturned and changes nothing |
| Properties.ProjectOtherErrorPropagates | documents.py:167-172 | a non-duplicate-key save failure on create reaches the caller unchanged and nothing is stored |
| Properties.TodoListAsWrittenNeverCreates | documents.py:109-111 | as written, a name no list carries ends in UnboundLocalError and the collection is unchanged |
| Properties.TodoListCreatesWhenUnseen | documents.py:112-122 | corrected handler, unused name: created = true and exactly one new active list, empty, without project |
| Properties.TodoListAsWrittenAgreesWhenFound | documents.py:123-132 | when one list of that name exists, the as-written and the corrected operation agree |
| Properties.TodoListInactiveRefused | documents.py:124-125 | an inactive list with reactivate = false: ValidationError, collection unchanged |
| Properties.TodoListUpdateFaultPropagates | documents.py:126-131 | a store failure while saving the found list reaches the caller as that OperationError and changes nothing |
| Properties.TodoListUpdatedInPlace | documents.py:126-132 | a found list keeps its id, items and creation date; it is active, renamed, moved to the project, with its users replaced; created = false |
| Properties.TodoListOtherErrorPropagates | documents.py:113-121 | corrected handler: a non-duplicate-key save failure on create reaches the caller unchanged and nothing is stored |
| Properties.TodoListRetryForwardsArguments | documents.py:115-119 | the retry forwards reactivate: an inactive list saved first by another writer makes the call raise ValidationError, and that list stays as saved |
| Properties.TodoListRaceConflict | documents.py:112-116 | in the race the other writer's insert succeeds, stored under the next id, and ours then hits the (project, name) index |
| Scenarios.TeamLifecycle | tests/test_documents.py:31-64 | create "Team Tom"; deactivate it; updating it with reactivate = false is refused; with reactivation it becomes "Team Tim" with both users on the same id |
| Scenarios.TeamCreateRace | tests/test_documents.py:66-78 | the race ends with one team, the winner, reported as not created |
| Scenarios.TeamCreateOtherError | tests/test_documents.py:80-86 | a save raising "not duplicate key error" reaches the caller and stores nothing |
| Scenarios.UserTeams | tests/test_documents.py:88-93 | two teams created for one user are listed for that user in creation order |

## Left out

- I/O: the database connection, the Flask routes and templates (`views.py`), login (`login.py`), application setup (`todo.py`) and the API dictionaries (`api.py`) are not part of this model.
- `User.get_id` (a unicode conversion) and `Item.get_all_for_project` (a single database query) are not modelled.
- Concurrency: the only interleaving modelled is one other writer's insert, between the lookup that misses and the insert. Lost updates between two updaters of one record are not modelled. On that path the last write wins, with no version check.
- Required-field validation: mongoengine validates `required=True` fields before it saves, and the abstract store does not. So the model stores what create_or_update builds as written: projects without team and description, and lists without project. mongoengine would refuse these with a `ValidationError`.
- Empty `users`: `users` is a required list on `Team`, `Project` and `TodoList`, and mongoengine refuses an empty required list. So `create_or_update` with an empty `users` raises `ValidationError` for all three classes, both when it creates and when it updates. The model stores the record with no users instead.
- `is_active` on `Project` and `TodoList`: neither document declares the field. The model gives them the same stored flag as `Team`. As written, reading the flag on a fetched record would fail, and setting it would not be stored.
- `to_do_lists`: `Project.create_or_update` assigns this undeclared field. mongoengine does not store it, so the model accepts the argument and stores nothing for it.
- In-memory documents: the model returns the record id. The record itself is the one in the collection. Python's document object keeps its field changes even when the save that follows fails; the model has no such object.
- `Deactivate` requires a team that is stored. A document that was never saved would be inserted by `save`; that case is not modelled.
- Error classification: the test `'E11000' in str(e)` is modelled as the `DuplicateKey` constructor. `OtherError` stands for every other `OperationError`.
- Store faults: `fault` hits every save of one call. A fault that hits only the retry, or the other writer's save, is not modelled.
- `loadedAt`: it is a parameter, so the model cannot force every call to pass the same value. In the program all calls share it.
- Result order: `TeamsForUser` and `ProjectsForTeam` return record ids in ascending, i.e. creation, order. MongoDB's natural order usually matches this but does not promise it.
- `Team.user_teams`, which `tests/test_documents.py:93` calls, does not exist. The scenario uses `get_teams_for_user`.
- The `users` index of `Team` is not unique, so it constrains no save and is not modelled.

## Findings

| source | as written | input that shows it | evidently intended | confidence | as-written member | corrected member |
|---|---|---|---|---|---|---|
| documents.py:111 | `except todo_list.DoesNotExist:` evaluates the local `todo_list` before anything is bound to it, so a lookup that raises ends in UnboundLocalError and no list is ever created | any name that no stored list carries, e.g. the first call on an empty collection | `except TodoList.DoesNotExist:`, then create the list as the other three classes do | not executed; high | Properties.TodoListAsWrittenNeverCreates | Properties.TodoListCreatesWhenUnseen |
