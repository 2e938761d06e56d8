/** The entity repository as the program runs it: each create_or_update looks
    the document up in its collection, then builds and saves a new document or
    changes the fetched one field by field and saves it back. Each method is
    proved to do exactly what the matching function of `Documents` says. */
module Repository {
  import opened Store
  import opened Documents

  /** The collection of each document class, with the unique indexes it declares. */
  ghost predicate IsUserTable(t: Table<User>) reads t { t.Valid() && t.clash == UserClash }
  ghost predicate IsTeamTable(t: Table<Team>) reads t { t.Valid() && t.clash == TeamClash }
  ghost predicate IsProjectTable(t: Table<Project>) reads t { t.Valid() && t.clash == ProjectClash }
  ghost predicate IsTodoListTable(t: Table<TodoList>) reads t { t.Valid() && t.clash == TodoListClash }

  /** User.create_or_update. */
  method CreateOrUpdateUser(
    users: Table<User>, googleId: string, name: string, email: string, avatar: string,
    reactivate: bool, rival: Option<User>, fault: Option<string>, loadedAt: Timestamp)
    returns (r: Outcome<Upserted>)
    requires IsUserTable(users)
    modifies users
    ensures IsUserTable(users)
    ensures Step(r, users.State())
         == UserUpsert(old(users.State()), googleId, name, email, avatar, reactivate, rival, fault, loadedAt)
  {
    var found := users.Get(WithGoogleId(googleId));
    match found {
      case Found(id) =>
        var user := users.rows[id];
        if !user.isActive && !reactivate {
          return Err(ValidationError(UserInactive));
        }
        user := user.(name := name);
        user := user.(email := email);
        user := user.(avatar := avatar);
        user := user.(isActive := true);
        var saved := users.Update(id, user, fault);
        return AsUpdated(saved, id);
      case Ambiguous =>
        return Err(MultipleObjectsReturned);
      case Missing =>
        if rival.Some? {
          var ignored := users.Insert(rival.value, None);
        }
        var saved := users.Insert(NewUser(googleId, name, email, avatar, loadedAt), fault);
        return AsCreated(saved);
    }
  }

  /** Team.create_or_update. */
  method CreateOrUpdateTeam(
    teams: Table<Team>, name: string, users: seq<UserRef>, newName: Option<string>,
    reactivate: bool, rival: Option<Team>, fault: Option<string>, loadedAt: Timestamp)
    returns (r: Outcome<Upserted>)
    requires IsTeamTable(teams)
    modifies teams
    ensures IsTeamTable(teams)
    ensures Step(r, teams.State())
         == TeamUpsert(old(teams.State()), name, users, newName, reactivate, rival, fault, loadedAt)
    decreases if Taken(teams.rows, TeamNamed(name)) then 0 else 1
  {
    var found := teams.Get(TeamNamed(name));
    match found {
      case Found(id) =>
        var team := teams.rows[id];
        if !team.isActive && !reactivate {
          return Err(ValidationError(TeamInactive));
        }
        team := team.(isActive := true);
        team := team.(name := NameOr(newName, name));
        team := team.(users := users);
        var saved := teams.Update(id, team, fault);
        return AsUpdated(saved, id);
      case Ambiguous =>
        return Err(MultipleObjectsReturned);
      case Missing =>
        if rival.Some? {
          var ignored := teams.Insert(rival.value, None);
        }
        var saved := teams.Insert(Team(name, loadedAt, users, true), fault);
        if saved == Err(DuplicateKey) {
          r := CreateOrUpdateTeam(teams, name, users, None, true, None, fault, loadedAt);
          return;
        }
        return AsCreated(saved);
    }
  }

  /** Team.deactivate, on the team stored under `id`. */
  method Deactivate(teams: Table<Team>, id: RecordId, fault: Option<string>) returns (r: Outcome<()>)
    requires IsTeamTable(teams) && id in teams.rows
    modifies teams
    ensures IsTeamTable(teams)
    ensures Step(r, teams.State()) == TeamDeactivate(old(teams.State()), id, fault)
  {
    var team := teams.rows[id];
    team := team.(isActive := false);
    r := teams.Update(id, team, fault);
  }

  /** Project.create_or_update. */
  method CreateOrUpdateProject(
    projects: Table<Project>, name: string, team: RecordId, description: string, users: seq<UserRef>,
    toDoLists: seq<RecordId>, newName: Option<string>, reactivate: bool,
    rival: Option<Project>, fault: Option<string>, loadedAt: Timestamp)
    returns (r: Outcome<Upserted>)
    requires IsProjectTable(projects)
    modifies projects
    ensures IsProjectTable(projects)
    ensures Step(r, projects.State())
         == ProjectUpsert(old(projects.State()), name, team, description, users, toDoLists,
                          newName, reactivate, rival, fault, loadedAt)
    decreases if Taken(projects.rows, ProjectNamed(name)) then 0 else 1
  {
    var found := projects.Get(ProjectNamed(name));
    match found {
      case Found(id) =>
        var project := projects.rows[id];
        if !project.isActive && !reactivate {
          return Err(ValidationError(ProjectInactive));
        }
        project := project.(isActive := true);
        project := project.(name := NameOr(newName, name));
        project := project.(description := Some(description));
        project := project.(users := users);
        var saved := projects.Update(id, project, fault);
        return AsUpdated(saved, id);
      case Ambiguous =>
        return Err(MultipleObjectsReturned);
      case Missing =>
        if rival.Some? {
          var ignored := projects.Insert(rival.value, None);
        }
        var saved := projects.Insert(Project(name, None, None, loadedAt, users, true), fault);
        if saved == Err(DuplicateKey) {
          r := CreateOrUpdateProject(projects, name, team, description, users, toDoLists,
                                     None, true, None, fault, loadedAt);
          return;
        }
        return AsCreated(saved);
    }
  }

  /** The found branch of TodoList.create_or_update. */
  method RefreshTodoList(
    lists: Table<TodoList>, id: RecordId, name: string, project: RecordId, users: seq<UserRef>,
    newName: Option<string>, reactivate: bool, fault: Option<string>)
    returns (r: Outcome<Upserted>)
    requires IsTodoListTable(lists) && id in lists.rows
    modifies lists
    ensures IsTodoListTable(lists)
    ensures Step(r, lists.State())
         == TodoListRefresh(old(lists.State()), id, name, project, users, newName, reactivate, fault)
  {
    var list := lists.rows[id];
    if !list.isActive && !reactivate {
      return Err(ValidationError(TodoListInactive));
    }
    list := list.(isActive := true);
    list := list.(name := NameOr(newName, name));
    list := list.(project := Some(project));
    list := list.(users := users);
    var saved := lists.Update(id, list, fault);
    return AsUpdated(saved, id);
  }

  /** TodoList.create_or_update, its handler read as `except TodoList.DoesNotExist`. */
  method CreateOrUpdateTodoList(
    lists: Table<TodoList>, name: string, project: RecordId, users: seq<UserRef>,
    newName: Option<string>, reactivate: bool,
    rival: Option<TodoList>, fault: Option<string>, loadedAt: Timestamp)
    returns (r: Outcome<Upserted>)
    requires IsTodoListTable(lists)
    modifies lists
    ensures IsTodoListTable(lists)
    ensures Step(r, lists.State())
         == TodoListUpsert(old(lists.State()), name, project, users, newName, reactivate, rival, fault, loadedAt)
    decreases if Taken(lists.rows, TodoListNamed(name)) then 0 else 1
  {
    var found := lists.Get(TodoListNamed(name));
    match found {
      case Found(id) =>
        r := RefreshTodoList(lists, id, name, project, users, newName, reactivate, fault);
      case Ambiguous =>
        return Err(MultipleObjectsReturned);
      case Missing =>
        if rival.Some? {
          var ignored := lists.Insert(rival.value, None);
        }
        var saved := lists.Insert(TodoList(name, None, loadedAt, users, [], true), fault);
        if saved == Err(DuplicateKey) {
          r := CreateOrUpdateTodoList(lists, name, project, users, newName, reactivate, None, fault, loadedAt);
          return;
        }
        return AsCreated(saved);
    }
  }

  /** TodoList.create_or_update as written, where the handler names the unbound `todo_list`. */
  method CreateOrUpdateTodoListAsWritten(
    lists: Table<TodoList>, name: string, project: RecordId, users: seq<UserRef>,
    newName: Option<string>, reactivate: bool, fault: Option<string>)
    returns (r: Outcome<Upserted>)
    requires IsTodoListTable(lists)
    modifies lists
    ensures IsTodoListTable(lists)
    ensures Step(r, lists.State())
         == TodoListUpsertAsWritten(old(lists.State()), name, project, users, newName, reactivate, fault)
  {
    var found := lists.Get(TodoListNamed(name));
    if found.Found? {
      r := RefreshTodoList(lists, found.id, name, project, users, newName, reactivate, fault);
    } else {
      r := Err(UnboundLocal("todo_list"));
    }
  }

  /** Team.get_teams_for_user: the ids of the teams `user` belongs to, oldest first. */
  function TeamsForUser(teams: Table<Team>, user: UserRef): (r: seq<RecordId>)
    reads teams
    requires teams.Valid()
    ensures forall id :: id in r <==> id in teams.rows && user in teams.rows[id].users
    ensures forall i, j :: 0 <= i < j < |r| ==> r[i] < r[j]
  {
    IdsWhere(teams.rows, HasMember(user), teams.nextId)
  }

  /** Project.get_projects_for_team: the ids of the projects of team `team`, oldest first. */
  function ProjectsForTeam(projects: Table<Project>, team: RecordId): (r: seq<RecordId>)
    reads projects
    requires projects.Valid()
    ensures forall id :: id in r <==> id in projects.rows && projects.rows[id].team == Some(team)
    ensures forall i, j :: 0 <= i < j < |r| ==> r[i] < r[j]
  {
    IdsWhere(projects.rows, OwnedBy(team), projects.nextId)
  }
}
