/** What the create-or-update operations promise, proved of their specifications
    (and so, through the contracts of `Repository`, of the methods). */
module Properties {
  import opened Store
  import opened Documents

  // ---------------------------------------------------------------------------
  // User

  /** An unseen google_id with an unused email creates exactly one active user carrying the given fields. */
  lemma UserCreatesWhenUnseen(
    c: Collection<User>, googleId: string, name: string, email: string, avatar: string,
    reactivate: bool, loadedAt: Timestamp)
    requires WellFormed(c, UserClash)
    requires forall id :: id in c.rows ==> c.rows[id].googleId != googleId && c.rows[id].email != email
    ensures var r := UserUpsert(c, googleId, name, email, avatar, reactivate, None, None, loadedAt);
            && r.out == Ok(Upserted(c.nextId, true))
            && c.nextId !in c.rows
            && r.after.rows == c.rows[c.nextId := User(googleId, name, email, avatar, true, true, false, loadedAt)]
            && r.after.nextId == c.nextId + 1
  {
    assert Find(c.rows, WithGoogleId(googleId)) == Missing;
  }

  /** Creating a user whose email is taken fails with the duplicate key and is not retried. */
  lemma UserEmailTakenNotRetried(
    c: Collection<User>, googleId: string, name: string, email: string, avatar: string,
    reactivate: bool, loadedAt: Timestamp, holder: RecordId)
    requires WellFormed(c, UserClash)
    requires forall id :: id in c.rows ==> c.rows[id].googleId != googleId
    requires holder in c.rows && c.rows[holder].email == email
    ensures UserUpsert(c, googleId, name, email, avatar, reactivate, None, None, loadedAt)
         == Step(Err(DuplicateKey), c)
  {
    assert Find(c.rows, WithGoogleId(googleId)) == Missing;
    assert UserClash(c.rows[holder], NewUser(googleId, name, email, avatar, loadedAt));
  }

  /** When another writer saves the same google_id first, the conflict reaches the caller:
      the winner's user stays and nothing else is added. */
  lemma UserRaceNotRetried(
    c: Collection<User>, googleId: string, name: string, email: string, avatar: string,
    reactivate: bool, loadedAt: Timestamp, winner: User)
    requires WellFormed(c, UserClash)
    requires winner.googleId == googleId
    requires forall id :: id in c.rows ==> c.rows[id].googleId != googleId && c.rows[id].email != winner.email
    ensures var r := UserUpsert(c, googleId, name, email, avatar, reactivate, Some(winner), None, loadedAt);
            && r.out == Err(DuplicateKey)
            && r.after == Collection(c.rows[c.nextId := winner], c.nextId + 1)
  {
    assert Find(c.rows, WithGoogleId(googleId)) == Missing;
    var mid := OtherWriter(c, UserClash, Some(winner));
    assert mid == Collection(c.rows[c.nextId := winner], c.nextId + 1);
    assert UserClash(mid.rows[c.nextId], NewUser(googleId, name, email, avatar, loadedAt));
  }

  /** An inactive user is left alone when reactivation is refused. */
  lemma UserInactiveRefused(
    c: Collection<User>, id: RecordId, name: string, email: string, avatar: string,
    rival: Option<User>, fault: Option<string>, loadedAt: Timestamp)
    requires WellFormed(c, UserClash)
    requires id in c.rows && !c.rows[id].isActive
    ensures UserUpsert(c, c.rows[id].googleId, name, email, avatar, false, rival, fault, loadedAt)
         == Step(Err(ValidationError(UserInactive)), c)
  {
    assert Find(c.rows, WithGoogleId(c.rows[id].googleId)) == Found(id);
  }

  /** A store failure while saving a found user reaches the caller and changes nothing. */
  lemma UserUpdateFaultPropagates(
    c: Collection<User>, id: RecordId, name: string, email: string, avatar: string, reactivate: bool,
    rival: Option<User>, detail: string, loadedAt: Timestamp)
    requires WellFormed(c, UserClash)
    requires id in c.rows && (c.rows[id].isActive || reactivate)
    ensures UserUpsert(c, c.rows[id].googleId, name, email, avatar, reactivate, rival, Some(detail), loadedAt)
         == Step(Err(OtherError(detail)), c)
  {
    assert Find(c.rows, WithGoogleId(c.rows[id].googleId)) == Found(id);
  }

  /** A found user is updated in place: same id, no new record, active, with the new name, email and avatar. */
  lemma UserUpdatedInPlace(
    c: Collection<User>, id: RecordId, name: string, email: string, avatar: string,
    reactivate: bool, rival: Option<User>, loadedAt: Timestamp)
    requires WellFormed(c, UserClash)
    requires id in c.rows && (c.rows[id].isActive || reactivate)
    requires forall j :: j in c.rows && j != id ==> c.rows[j].email != email
    ensures var r := UserUpsert(c, c.rows[id].googleId, name, email, avatar, reactivate, rival, None, loadedAt);
            var u := c.rows[id];
            && r.out == Ok(Upserted(id, false))
            && r.after.nextId == c.nextId
            && r.after.rows == c.rows[id := User(u.googleId, name, email, avatar, u.isAuthenticated, true,
                                                 u.isAnonymous, u.createdDate)]
  {
    var u := c.rows[id];
    assert Find(c.rows, WithGoogleId(u.googleId)) == Found(id);
    var rec := u.(name := name, email := email, avatar := avatar, isActive := true);
    assert !ClashesWith(c.rows, UserClash, rec, Some(id));
  }

  // ---------------------------------------------------------------------------
  // Team

  /** An unused name creates exactly one active team with the given name and users. */
  lemma TeamCreatesWhenUnseen(
    c: Collection<Team>, name: string, users: seq<UserRef>, newName: Option<string>,
    reactivate: bool, loadedAt: Timestamp)
    requires WellFormed(c, TeamClash)
    requires forall id :: id in c.rows ==> c.rows[id].name != name
    ensures var r := TeamUpsert(c, name, users, newName, reactivate, None, None, loadedAt);
            && r.out == Ok(Upserted(c.nextId, true))
            && c.nextId !in c.rows
            && r.after.rows == c.rows[c.nextId := Team(name, loadedAt, users, true)]
            && r.after.nextId == c.nextId + 1
  {
    assert Find(c.rows, TeamNamed(name)) == Missing;
  }

  /** An inactive team is left alone when reactivation is refused. */
  lemma TeamInactiveRefused(
    c: Collection<Team>, id: RecordId, users: seq<UserRef>, newName: Option<string>,
    rival: Option<Team>, fault: Option<string>, loadedAt: Timestamp)
    requires WellFormed(c, TeamClash)
    requires id in c.rows && !c.rows[id].isActive
    ensures TeamUpsert(c, c.rows[id].name, users, newName, false, rival, fault, loadedAt)
         == Step(Err(ValidationError(TeamInactive)), c)
  {
    assert Find(c.rows, TeamNamed(c.rows[id].name)) == Found(id);
  }

  /** A store failure while saving a found team reaches the caller and changes nothing. */
  lemma TeamUpdateFaultPropagates(
    c: Collection<Team>, id: RecordId, users: seq<UserRef>, newName: Option<string>, reactivate: bool,
    rival: Option<Team>, detail: string, loadedAt: Timestamp)
    requires WellFormed(c, TeamClash)
    requires id in c.rows && (c.rows[id].isActive || reactivate)
    ensures TeamUpsert(c, c.rows[id].name, users, newName, reactivate, rival, Some(detail), loadedAt)
         == Step(Err(OtherError(detail)), c)
  {
    assert Find(c.rows, TeamNamed(c.rows[id].name)) == Found(id);
  }

  /** A found team is updated in place: same id, no new record, active, renamed to a
      non-empty new_name or else keeping the looked-up name, and its users replaced. */
  lemma TeamUpdatedInPlace(
    c: Collection<Team>, id: RecordId, users: seq<UserRef>, newName: Option<string>,
    reactivate: bool, rival: Option<Team>, loadedAt: Timestamp)
    requires WellFormed(c, TeamClash)
    requires id in c.rows && (c.rows[id].isActive || reactivate)
    requires forall j :: j in c.rows && j != id ==> c.rows[j].name != NameOr(newName, c.rows[id].name)
    ensures var t := c.rows[id];
            var r := TeamUpsert(c, t.name, users, newName, reactivate, rival, None, loadedAt);
            var renamed := if newName.Some? && newName.value != "" then newName.value else t.name;
            && r.out == Ok(Upserted(id, false))
            && r.after.nextId == c.nextId
            && r.after.rows == c.rows[id := Team(renamed, t.createdDate, users, true)]
  {
    var t := c.rows[id];
    assert Find(c.rows, TeamNamed(t.name)) == Found(id);
    var rec := t.(isActive := true, name := NameOr(newName, t.name), users := users);
    assert !ClashesWith(c.rows, TeamClash, rec, Some(id));
  }

  /** Renaming a found team to the name of another team fails with the duplicate key and changes nothing. */
  lemma TeamRenameOntoTakenName(
    c: Collection<Team>, id: RecordId, other: RecordId, users: seq<UserRef>, newName: string,
    reactivate: bool, rival: Option<Team>, loadedAt: Timestamp)
    requires WellFormed(c, TeamClash)
    requires id in c.rows && (c.rows[id].isActive || reactivate)
    requires other in c.rows && other != id && c.rows[other].name == newName && newName != ""
    ensures TeamUpsert(c, c.rows[id].name, users, Some(newName), reactivate, rival, None, loadedAt)
         == Step(Err(DuplicateKey), c)
  {
    var t := c.rows[id];
    assert Find(c.rows, TeamNamed(t.name)) == Found(id);
    var rec := t.(isActive := true, name := newName, users := users);
    assert TeamClash(c.rows[other], rec);
  }

  /** A duplicate key on insert re-runs the call as `create_or_update(name, users)`, so
      once the insert has hit the name index, new_name and reactivate no longer matter. */
  lemma TeamRetryIgnoresArguments(
    c: Collection<Team>, name: string, users: seq<UserRef>, n1: Option<string>, r1: bool,
    n2: Option<string>, r2: bool, rival: Option<Team>, fault: Option<string>, loadedAt: Timestamp)
    requires forall id :: id in c.rows ==> c.rows[id].name != name
    requires InsertStep(OtherWriter(c, TeamClash, rival), TeamClash, Team(name, loadedAt, users, true), fault).out
               == Err(DuplicateKey)
    ensures TeamUpsert(c, name, users, n1, r1, rival, fault, loadedAt)
         == TeamUpsert(c, name, users, n2, r2, rival, fault, loadedAt)
  {
    assert Find(c.rows, TeamNamed(name)) == Missing;
  }

  /** The race of the tests: another writer saves a team of the same name after the
      lookup. Exactly one insert succeeds (the winner's); the retry finds it and
      returns it with created = false; it drops new_name and reactivate, so the
      winner keeps its name and is reactivated whatever the caller asked. */
  lemma TeamRaceRetryFindsWinner(
    c: Collection<Team>, name: string, users: seq<UserRef>, newName: Option<string>,
    reactivate: bool, loadedAt: Timestamp, winner: Team)
    requires WellFormed(c, TeamClash)
    requires forall id :: id in c.rows ==> c.rows[id].name != name
    requires winner.name == name
    ensures var r := TeamUpsert(c, name, users, newName, reactivate, Some(winner), None, loadedAt);
            && r.out == Ok(Upserted(c.nextId, false))
            && r.after.rows == c.rows[c.nextId := winner.(users := users, isActive := true)]
            && r.after.nextId == c.nextId + 1
  {
    TeamRaceConflict(c, name, users, loadedAt, winner);
    assert TeamUpsert(c, name, users, newName, reactivate, Some(winner), None, loadedAt)
        == TeamUpsert(Collection(c.rows[c.nextId := winner], c.nextId + 1), name, users, None, true, None, None, loadedAt)
    by {
      assert Find(c.rows, TeamNamed(name)) == Missing;
    }
    TeamWinnerRefreshed(c, name, users, loadedAt, winner);
  }

  /** In the race the other writer's insert succeeds and ours then hits the name index. */
  lemma TeamRaceConflict(c: Collection<Team>, name: string, users: seq<UserRef>, loadedAt: Timestamp, winner: Team)
    requires WellFormed(c, TeamClash)
    requires forall id :: id in c.rows ==> c.rows[id].name != name
    requires winner.name == name
    ensures OtherWriter(c, TeamClash, Some(winner)) == Collection(c.rows[c.nextId := winner], c.nextId + 1)
    ensures InsertStep(Collection(c.rows[c.nextId := winner], c.nextId + 1), TeamClash,
                       Team(name, loadedAt, users, true), None).out == Err(DuplicateKey)
  {
    assert !ClashesWith(c.rows, TeamClash, winner, None);
    assert TeamClash(c.rows[c.nextId := winner][c.nextId], Team(name, loadedAt, users, true));
  }

  /** The retry of the race finds the winner and refreshes it with the defaults. */
  lemma TeamWinnerRefreshed(c: Collection<Team>, name: string, users: seq<UserRef>, loadedAt: Timestamp, winner: Team)
    requires WellFormed(c, TeamClash)
    requires forall id :: id in c.rows ==> c.rows[id].name != name
    requires winner.name == name
    ensures var r := TeamUpsert(Collection(c.rows[c.nextId := winner], c.nextId + 1),
                                name, users, None, true, None, None, loadedAt);
            && r.out == Ok(Upserted(c.nextId, false))
            && r.after.rows == c.rows[c.nextId := winner.(users := users, isActive := true)]
            && r.after.nextId == c.nextId + 1
  {
    var mid := Collection(c.rows[c.nextId := winner], c.nextId + 1);
    assert mid.rows[c.nextId] == winner;
    assert forall j :: j in mid.rows && mid.rows[j].name == name ==> j == c.nextId;
    TeamUpdatedInPlace(mid, c.nextId, users, None, true, None, loadedAt);
    var kept := Team(name, winner.createdDate, users, true);
    assert kept == winner.(users := users, isActive := true);
    assert mid.rows[c.nextId := kept] == c.rows[c.nextId := kept];
  }

  /** Once a team of that name exists the call never inserts, so the retry after a
      conflict, which starts from such a store, recurses no further. */
  lemma {:induction false} TeamRetryTakesFoundBranch(
    c: Collection<Team>, name: string, users: seq<UserRef>, newName: Option<string>,
    reactivate: bool, rival: Option<Team>, fault: Option<string>, loadedAt: Timestamp)
    requires exists id :: id in c.rows && c.rows[id].name == name
    ensures var r := TeamUpsert(c, name, users, newName, reactivate, rival, fault, loadedAt);
            && r.after.nextId == c.nextId
            && r.after.rows.Keys == c.rows.Keys
            && (r.out.Ok? ==> !r.out.value.created && r.out.value.id in c.rows)
  {
    assert Taken(c.rows, TeamNamed(name));
  }

  /** A failure of the insert other than a duplicate key reaches the caller unchanged,
      and nothing of the caller's is stored: the only new record, if any, is the other writer's. */
  lemma TeamOtherErrorPropagates(
    c: Collection<Team>, name: string, users: seq<UserRef>, newName: Option<string>,
    reactivate: bool, rival: Option<Team>, detail: string, loadedAt: Timestamp)
    requires WellFormed(c, TeamClash)
    requires forall id :: id in c.rows ==> c.rows[id].name != name
    ensures var r := TeamUpsert(c, name, users, newName, reactivate, rival, Some(detail), loadedAt);
            && r.out == Err(OtherError(detail))
            && (forall id :: id in c.rows ==> id in r.after.rows && r.after.rows[id] == c.rows[id])
            && (forall id :: id in r.after.rows && id !in c.rows ==> rival == Some(r.after.rows[id]))
            && (rival.None? ==> r.after == c)
  {
    assert Find(c.rows, TeamNamed(name)) == Missing;
  }

  /** Calling twice with the same name never produces a second team: the second call
      updates the team the first one created. */
  lemma TeamCreateThenUpdate(
    c: Collection<Team>, name: string, users: seq<UserRef>, users2: seq<UserRef>,
    newName: Option<string>, loadedAt: Timestamp)
    requires WellFormed(c, TeamClash)
    requires forall id :: id in c.rows ==> c.rows[id].name != name && c.rows[id].name != NameOr(newName, name)
    ensures var first := TeamUpsert(c, name, users, None, true, None, None, loadedAt);
            var second := TeamUpsert(first.after, name, users2, newName, true, None, None, loadedAt);
            && first.out == Ok(Upserted(c.nextId, true))
            && second.out == Ok(Upserted(c.nextId, false))
            && second.after.nextId == first.after.nextId
            && second.after.rows == c.rows[c.nextId := Team(NameOr(newName, name), loadedAt, users2, true)]
  {
    TeamCreatesWhenUnseen(c, name, users, None, true, loadedAt);
    var first := TeamUpsert(c, name, users, None, true, None, None, loadedAt);
    TeamUpdatedInPlace(first.after, c.nextId, users2, newName, true, None, loadedAt);
  }

  /** Deactivating a team and then calling create_or_update on its name: refused
      without reactivation (the team stays as deactivated), reactivated otherwise. */
  lemma TeamDeactivateThenUpsert(
    c: Collection<Team>, id: RecordId, users: seq<UserRef>, newName: Option<string>, loadedAt: Timestamp)
    requires WellFormed(c, TeamClash)
    requires id in c.rows
    requires forall j :: j in c.rows && j != id ==> c.rows[j].name != NameOr(newName, c.rows[id].name)
    ensures var t := c.rows[id];
            var off := TeamDeactivate(c, id, None);
            && off.after.rows == c.rows[id := t.(isActive := false)]
            && TeamUpsert(off.after, t.name, users, newName, false, None, None, loadedAt)
               == Step(Err(ValidationError(TeamInactive)), off.after)
            && TeamUpsert(off.after, t.name, users, newName, true, None, None, loadedAt)
               == Step(Ok(Upserted(id, false)),
                       c.(rows := c.rows[id := Team(NameOr(newName, t.name), t.createdDate, users, true)]))
  {
    var off := TeamDeactivate(c, id, None);
    TeamInactiveRefused(off.after, id, users, newName, None, None, loadedAt);
    TeamUpdatedInPlace(off.after, id, users, newName, true, None, loadedAt);
  }

  // ---------------------------------------------------------------------------
  // Project

  /** An unused name creates exactly one active project, without team or description. */
  lemma ProjectCreatesWithoutTeam(
    c: Collection<Project>, name: string, team: RecordId, description: string, users: seq<UserRef>,
    toDoLists: seq<RecordId>, newName: Option<string>, reactivate: bool, loadedAt: Timestamp)
    requires WellFormed(c, ProjectClash)
    requires forall id :: id in c.rows ==> c.rows[id].name != name
    ensures var r := ProjectUpsert(c, name, team, description, users, toDoLists, newName, reactivate,
                                   None, None, loadedAt);
            && r.out == Ok(Upserted(c.nextId, true))
            && c.nextId !in c.rows
            && r.after.rows == c.rows[c.nextId := Project(name, None, None, loadedAt, users, true)]
            && r.after.nextId == c.nextId + 1
  {
    assert Find(c.rows, ProjectNamed(name)) == Missing;
  }

  /** An inactive project, the only one of its name, is left alone when reactivation is refused. */
  lemma ProjectInactiveRefused(
    c: Collection<Project>, id: RecordId, team: RecordId, description: string, users: seq<UserRef>,
    toDoLists: seq<RecordId>, newName: Option<string>, rival: Option<Project>, fault: Option<string>,
    loadedAt: Timestamp)
    requires id in c.rows && !c.rows[id].isActive
    requires forall j :: j in c.rows && c.rows[j].name == c.rows[id].name ==> j == id
    ensures ProjectUpsert(c, c.rows[id].name, team, description, users, toDoLists, newName, false,
                          rival, fault, loadedAt)
         == Step(Err(ValidationError(ProjectInactive)), c)
  {
    assert Find(c.rows, ProjectNamed(c.rows[id].name)) == Found(id);
  }

  /** A store failure while saving the found project reaches the caller and changes nothing. */
  lemma ProjectUpdateFaultPropagates(
    c: Collection<Project>, id: RecordId, team: RecordId, description: string, users: seq<UserRef>,
    toDoLists: seq<RecordId>, newName: Option<string>, reactivate: bool, rival: Option<Project>,
    detail: string, loadedAt: Timestamp)
    requires id in c.rows && (c.rows[id].isActive || reactivate)
    requires forall j :: j in c.rows && c.rows[j].name == c.rows[id].name ==> j == id
    ensures ProjectUpsert(c, c.rows[id].name, team, description, users, toDoLists, newName, reactivate,
                          rival, Some(detail), loadedAt)
         == Step(Err(OtherError(detail)), c)
  {
    assert Find(c.rows, ProjectNamed(c.rows[id].name)) == Found(id);
  }

  /** A found project is updated in place: same id, no new record, active, renamed,
      description and users replaced, team and creation date kept. */
  lemma ProjectUpdatedInPlace(
    c: Collection<Project>, id: RecordId, team: RecordId, description: string, users: seq<UserRef>,
    toDoLists: seq<RecordId>, newName: Option<string>, reactivate: bool, rival: Option<Project>,
    loadedAt: Timestamp)
    requires WellFormed(c, ProjectClash)
    requires id in c.rows && (c.rows[id].isActive || reactivate)
    requires forall j :: j in c.rows && c.rows[j].name == c.rows[id].name ==> j == id
    requires forall j :: j in c.rows && j != id && c.rows[j].team == c.rows[id].team ==>
                           c.rows[j].name != NameOr(newName, c.rows[id].name)
    ensures var p := c.rows[id];
            var r := ProjectUpsert(c, p.name, team, description, users, toDoLists, newName, reactivate,
                                   rival, None, loadedAt);
            && r.out == Ok(Upserted(id, false))
            && r.after.nextId == c.nextId
            && r.after.rows == c.rows[id := Project(NameOr(newName, p.name), p.team, Some(description),
                                                    p.createdDate, users, true)]
  {
    var p := c.rows[id];
    assert Find(c.rows, ProjectNamed(p.name)) == Found(id);
    var rec := p.(isActive := true, name := NameOr(newName, p.name), description := Some(description), users := users);
    assert !ClashesWith(c.rows, ProjectClash, rec, Some(id));
  }

  /** A duplicate key on insert re-runs the call without new_name and reactivate, so
      once the insert has hit the index, those two arguments no longer matter. */
  lemma ProjectRetryIgnoresArguments(
    c: Collection<Project>, name: string, team: RecordId, description: string, users: seq<UserRef>,
    toDoLists: seq<RecordId>, n1: Option<string>, r1: bool, n2: Option<string>, r2: bool,
    rival: Option<Project>, fault: Option<string>, loadedAt: Timestamp)
    requires forall id :: id in c.rows ==> c.rows[id].name != name
    requires var mid := OtherWriter(c, ProjectClash, rival);
             InsertStep(mid, ProjectClash, Project(name, None, None, loadedAt, users, true), fault).out
               == Err(DuplicateKey)
    ensures ProjectUpsert(c, name, team, description, users, toDoLists, n1, r1, rival, fault, loadedAt)
         == ProjectUpsert(c, name, team, description, users, toDoLists, n2, r2, rival, fault, loadedAt)
  {
    assert Find(c.rows, ProjectNamed(name)) == Missing;
  }

  /** The retry after a conflict drops new_name and reactivate: an inactive project
      another writer saved first is reactivated and keeps its name. */
  lemma ProjectRetryDropsArguments(
    c: Collection<Project>, name: string, team: RecordId, description: string, users: seq<UserRef>,
    toDoLists: seq<RecordId>, newName: Option<string>, reactivate: bool, loadedAt: Timestamp, winner: Project)
    requires WellFormed(c, ProjectClash)
    requires forall id :: id in c.rows ==> c.rows[id].name != name
    requires winner.name == name && winner.team == None
    ensures var r := ProjectUpsert(c, name, team, description, users, toDoLists, newName, reactivate,
                                   Some(winner), None, loadedAt);
            && r.out == Ok(Upserted(c.nextId, false))
            && r.after.rows == c.rows[c.nextId := winner.(isActive := true, description := Some(description),
                                                          users := users)]
            && r.after.nextId == c.nextId + 1
  {
    ProjectRaceConflict(c, name, users, loadedAt, winner);
    assert ProjectUpsert(c, name, team, description, users, toDoLists, newName, reactivate, Some(winner), None, loadedAt)
        == ProjectUpsert(Collection(c.rows[c.nextId := winner], c.nextId + 1), name, team, description, users,
                         toDoLists, None, true, None, None, loadedAt)
    by {
      assert Find(c.rows, ProjectNamed(name)) == Missing;
    }
    ProjectWinnerRefreshed(c, name, team, description, users, toDoLists, loadedAt, winner);
  }

  /** In the race the other writer's insert succeeds and ours then hits the (team, name) index. */
  lemma ProjectRaceConflict(c: Collection<Project>, name: string, users: seq<UserRef>, loadedAt: Timestamp, winner: Project)
    requires WellFormed(c, ProjectClash)
    requires forall id :: id in c.rows ==> c.rows[id].name != name
    requires winner.name == name && winner.team == None
    ensures OtherWriter(c, ProjectClash, Some(winner)) == Collection(c.rows[c.nextId := winner], c.nextId + 1)
    ensures InsertStep(Collection(c.rows[c.nextId := winner], c.nextId + 1), ProjectClash,
                       Project(name, None, None, loadedAt, users, true), None).out == Err(DuplicateKey)
  {
    assert !ClashesWith(c.rows, ProjectClash, winner, None);
    assert ProjectClash(c.rows[c.nextId := winner][c.nextId], Project(name, None, None, loadedAt, users, true));
  }

  /** The retry of the race finds the winner and refreshes it with the defaults. */
  lemma ProjectWinnerRefreshed(
    c: Collection<Project>, name: string, team: RecordId, description: string, users: seq<UserRef>,
    toDoLists: seq<RecordId>, loadedAt: Timestamp, winner: Project)
    requires WellFormed(c, ProjectClash)
    requires forall id :: id in c.rows ==> c.rows[id].name != name
    requires winner.name == name
    ensures var r := ProjectUpsert(Collection(c.rows[c.nextId := winner], c.nextId + 1),
                                   name, team, description, users, toDoLists, None, true, None, None, loadedAt);
            && r.out == Ok(Upserted(c.nextId, false))
            && r.after.rows == c.rows[c.nextId := winner.(isActive := true, description := Some(description),
                                                          users := users)]
            && r.after.nextId == c.nextId + 1
  {
    var mid := Collection(c.rows[c.nextId := winner], c.nextId + 1);
    assert mid.rows[c.nextId] == winner;
    assert forall j :: j in mid.rows && mid.rows[j].name == name ==> j == c.nextId;
    ProjectUpdatedInPlace(mid, c.nextId, team, description, users, toDoLists, None, true, None, loadedAt);
    var kept := Project(name, winner.team, Some(description), winner.createdDate, users, true);
    assert NameOr(None, name) == name;
    assert kept == winner.(isActive := true, description := Some(description), users := users);
    assert mid.rows[c.nextId := kept] == c.rows[c.nextId := kept];
  }

  /** The lookup by name alone fails when two teams have projects of that name. */
  lemma ProjectNameOnlyLookupAmbiguous(
    c: Collection<Project>, a: RecordId, b: RecordId, team: RecordId, description: string,
    users: seq<UserRef>, toDoLists: seq<RecordId>, newName: Option<string>, reactivate: bool,
    rival: Option<Project>, fault: Option<string>, loadedAt: Timestamp)
    requires a in c.rows && b in c.rows && a != b && c.rows[a].name == c.rows[b].name
    ensures ProjectUpsert(c, c.rows[a].name, team, description, users, toDoLists, newName, reactivate,
                          rival, fault, loadedAt)
         == Step(Err(MultipleObjectsReturned), c)
  {
    assert Find(c.rows, ProjectNamed(c.rows[a].name)) == Ambiguous;
  }

  /** A failure of the insert other than a duplicate key reaches the caller unchanged. */
  lemma ProjectOtherErrorPropagates(
    c: Collection<Project>, name: string, team: RecordId, description: string, users: seq<UserRef>,
    toDoLists: seq<RecordId>, newName: Option<string>, reactivate: bool, detail: string, loadedAt: Timestamp)
    requires forall id :: id in c.rows ==> c.rows[id].name != name
    ensures ProjectUpsert(c, name, team, description, users, toDoLists, newName, reactivate,
                          None, Some(detail), loadedAt)
         == Step(Err(OtherError(detail)), c)
  {
    assert Find(c.rows, ProjectNamed(name)) == Missing;
  }

  // ---------------------------------------------------------------------------
  // TodoList

  /** As written, a name that is not stored yet never creates a list: the handler
      itself raises UnboundLocalError and the collection is left as it was. */
  lemma TodoListAsWrittenNeverCreates(
    c: Collection<TodoList>, name: string, project: RecordId, users: seq<UserRef>,
    newName: Option<string>, reactivate: bool, fault: Option<string>)
    requires forall id :: id in c.rows ==> c.rows[id].name != name
    ensures TodoListUpsertAsWritten(c, name, project, users, newName, reactivate, fault)
         == Step(Err(UnboundLocal("todo_list")), c)
  {
    assert Find(c.rows, TodoListNamed(name)) == Missing;
  }

  /** With the handler naming `TodoList`, an unused name creates exactly one active, empty list without project. */
  lemma TodoListCreatesWhenUnseen(
    c: Collection<TodoList>, name: string, project: RecordId, users: seq<UserRef>,
    newName: Option<string>, reactivate: bool, loadedAt: Timestamp)
    requires WellFormed(c, TodoListClash)
    requires forall id :: id in c.rows ==> c.rows[id].name != name
    ensures var r := TodoListUpsert(c, name, project, users, newName, reactivate, None, None, loadedAt);
            && r.out == Ok(Upserted(c.nextId, true))
            && c.nextId !in c.rows
            && r.after.rows == c.rows[c.nextId := TodoList(name, None, loadedAt, users, [], true)]
            && r.after.nextId == c.nextId + 1
  {
    assert Find(c.rows, TodoListNamed(name)) == Missing;
  }

  /** Where the lookup finds one list, the code as written and the corrected code agree. */
  lemma TodoListAsWrittenAgreesWhenFound(
    c: Collection<TodoList>, id: RecordId, project: RecordId, users: seq<UserRef>,
    newName: Option<string>, reactivate: bool, rival: Option<TodoList>, fault: Option<string>,
    loadedAt: Timestamp)
    requires id in c.rows
    requires forall j :: j in c.rows && c.rows[j].name == c.rows[id].name ==> j == id
    ensures TodoListUpsertAsWritten(c, c.rows[id].name, project, users, newName, reactivate, fault)
         == TodoListUpsert(c, c.rows[id].name, project, users, newName, reactivate, rival, fault, loadedAt)
  {
    assert Find(c.rows, TodoListNamed(c.rows[id].name)) == Found(id);
  }

  /** An inactive list, the only one of its name, is left alone when reactivation is refused. */
  lemma TodoListInactiveRefused(
    c: Collection<TodoList>, id: RecordId, project: RecordId, users: seq<UserRef>,
    newName: Option<string>, rival: Option<TodoList>, fault: Option<string>, loadedAt: Timestamp)
    requires id in c.rows && !c.rows[id].isActive
    requires forall j :: j in c.rows && c.rows[j].name == c.rows[id].name ==> j == id
    ensures TodoListUpsert(c, c.rows[id].name, project, users, newName, false, rival, fault, loadedAt)
         == Step(Err(ValidationError(TodoListInactive)), c)
  {
    assert Find(c.rows, TodoListNamed(c.rows[id].name)) == Found(id);
  }

  /** A store failure while saving the found list reaches the caller and changes nothing. */
  lemma TodoListUpdateFaultPropagates(
    c: Collection<TodoList>, id: RecordId, project: RecordId, users: seq<UserRef>,
    newName: Option<string>, reactivate: bool, rival: Option<TodoList>, detail: string, loadedAt: Timestamp)
    requires id in c.rows && (c.rows[id].isActive || reactivate)
    requires forall j :: j in c.rows && c.rows[j].name == c.rows[id].name ==> j == id
    ensures TodoListUpsert(c, c.rows[id].name, project, users, newName, reactivate, rival, Some(detail), loadedAt)
         == Step(Err(OtherError(detail)), c)
  {
    assert Find(c.rows, TodoListNamed(c.rows[id].name)) == Found(id);
  }

  /** A found list is updated in place: same id, active, renamed, moved to `project`,
      users replaced, its items and creation date kept. */
  lemma TodoListUpdatedInPlace(
    c: Collection<TodoList>, id: RecordId, project: RecordId, users: seq<UserRef>,
    newName: Option<string>, reactivate: bool, rival: Option<TodoList>, loadedAt: Timestamp)
    requires WellFormed(c, TodoListClash)
    requires id in c.rows && (c.rows[id].isActive || reactivate)
    requires forall j :: j in c.rows && c.rows[j].name == c.rows[id].name ==> j == id
    requires forall j :: j in c.rows && j != id && c.rows[j].project == Some(project) ==>
                           c.rows[j].name != NameOr(newName, c.rows[id].name)
    ensures var l := c.rows[id];
            var r := TodoListUpsert(c, l.name, project, users, newName, reactivate, rival, None, loadedAt);
            && r.out == Ok(Upserted(id, false))
            && r.after.nextId == c.nextId
            && r.after.rows == c.rows[id := TodoList(NameOr(newName, l.name), Some(project), l.createdDate,
                                                     users, l.items, true)]
  {
    var l := c.rows[id];
    assert Find(c.rows, TodoListNamed(l.name)) == Found(id);
    var rec := l.(isActive := true, name := NameOr(newName, l.name), project := Some(project), users := users);
    assert !ClashesWith(c.rows, TodoListClash, rec, Some(id));
  }

  /** With the handler corrected, a failure of the insert other than a duplicate key
      reaches the caller unchanged and nothing is stored. */
  lemma TodoListOtherErrorPropagates(
    c: Collection<TodoList>, name: string, project: RecordId, users: seq<UserRef>,
    newName: Option<string>, reactivate: bool, detail: string, loadedAt: Timestamp)
    requires forall id :: id in c.rows ==> c.rows[id].name != name
    ensures TodoListUpsert(c, name, project, users, newName, reactivate, None, Some(detail), loadedAt)
         == Step(Err(OtherError(detail)), c)
  {
    assert Find(c.rows, TodoListNamed(name)) == Missing;
  }

  /** Unlike Team and Project, the retry forwards reactivate: an inactive list another
      writer saved first makes the call fail when reactivation is refused. */
  lemma TodoListRetryForwardsArguments(
    c: Collection<TodoList>, name: string, project: RecordId, users: seq<UserRef>,
    newName: Option<string>, loadedAt: Timestamp, winner: TodoList)
    requires WellFormed(c, TodoListClash)
    requires forall id :: id in c.rows ==> c.rows[id].name != name
    requires winner.name == name && winner.project == None && !winner.isActive
    ensures TodoListUpsert(c, name, project, users, newName, false, Some(winner), None, loadedAt)
         == Step(Err(ValidationError(TodoListInactive)), Collection(c.rows[c.nextId := winner], c.nextId + 1))
  {
    TodoListRaceConflict(c, name, users, loadedAt, winner);
    var mid := Collection(c.rows[c.nextId := winner], c.nextId + 1);
    assert TodoListUpsert(c, name, project, users, newName, false, Some(winner), None, loadedAt)
        == TodoListUpsert(mid, name, project, users, newName, false, None, None, loadedAt)
    by {
      assert Find(c.rows, TodoListNamed(name)) == Missing;
    }
    assert Find(mid.rows, TodoListNamed(name)) == Found(c.nextId) by {
      assert mid.rows[c.nextId] == winner;
    }
  }

  /** In the race the other writer's insert succeeds and ours then hits the (project, name) index. */
  lemma TodoListRaceConflict(c: Collection<TodoList>, name: string, users: seq<UserRef>, loadedAt: Timestamp, winner: TodoList)
    requires WellFormed(c, TodoListClash)
    requires forall id :: id in c.rows ==> c.rows[id].name != name
    requires winner.name == name && winner.project == None
    ensures OtherWriter(c, TodoListClash, Some(winner)) == Collection(c.rows[c.nextId := winner], c.nextId + 1)
    ensures InsertStep(Collection(c.rows[c.nextId := winner], c.nextId + 1), TodoListClash,
                       TodoList(name, None, loadedAt, users, [], true), None).out == Err(DuplicateKey)
  {
    assert !ClashesWith(c.rows, TodoListClash, winner, None);
    assert TodoListClash(c.rows[c.nextId := winner][c.nextId], TodoList(name, None, loadedAt, users, [], true));
  }
}
