/** The documents of the to-do application (users, teams, projects, to-do
    lists, items), the unique indexes their collections declare, and the
    create-or-update ("upsert") operation of each document class, stated as
    functions from the collection before the call to what the call returns
    and the collection after it. */
module Documents {
  import opened Store

  /** A user as embedded in a team, project or list; only its identity matters here. */
  type UserRef(==)
  /** A `created_date` value. */
  type Timestamp(==)

  datatype User = User(
    googleId: string,
    name: string,
    email: string,
    avatar: string,
    isAuthenticated: bool,
    isActive: bool,
    isAnonymous: bool,
    createdDate: Timestamp)

  datatype Item = Item(
    text: string,
    createdDate: Timestamp,
    assignedTo: Option<UserRef>,
    completedDate: Option<Timestamp>,
    completedBy: Option<int>)

  /** `project` is optional because create_or_update saves new lists without one. */
  datatype TodoList = TodoList(
    name: string,
    project: Option<RecordId>,
    createdDate: Timestamp,
    users: seq<UserRef>,
    items: seq<Item>,
    isActive: bool)

  /** `team` and `description` are optional because create_or_update saves new projects without them. */
  datatype Project = Project(
    name: string,
    team: Option<RecordId>,
    description: Option<string>,
    createdDate: Timestamp,
    users: seq<UserRef>,
    isActive: bool)

  datatype Team = Team(
    name: string,
    createdDate: Timestamp,
    users: seq<UserRef>,
    isActive: bool)

  /** The pair create_or_update returns: the record and whether it was created. */
  datatype Upserted = Upserted(id: RecordId, created: bool)

  // ---------------------------------------------------------------------------
  // Unique indexes: two records clash when a unique index holds the same key for both.

  /** Users are unique by email and, separately, by google_id. */
  predicate UserClash(a: User, b: User) {
    a.email == b.email || a.googleId == b.googleId
  }

  /** Teams are unique by name. */
  predicate TeamClash(a: Team, b: Team) {
    a.name == b.name
  }

  /** Projects are unique by (team, name). */
  predicate ProjectClash(a: Project, b: Project) {
    a.team == b.team && a.name == b.name
  }

  /** To-do lists are unique by (project, name). */
  predicate TodoListClash(a: TodoList, b: TodoList) {
    a.project == b.project && a.name == b.name
  }

  /** What the user indexes guarantee of a collection that keeps them: no two users
      share an email, and no two share a google_id. */
  lemma UserKeysDistinct(c: Collection<User>)
    ensures Unique(c.rows, UserClash) <==>
              forall i, j :: i in c.rows && j in c.rows && i != j ==>
                c.rows[i].email != c.rows[j].email && c.rows[i].googleId != c.rows[j].googleId
  {
  }

  /** No two teams share a name. */
  lemma TeamKeysDistinct(c: Collection<Team>)
    ensures Unique(c.rows, TeamClash) <==>
              forall i, j :: i in c.rows && j in c.rows && i != j ==> c.rows[i].name != c.rows[j].name
  {
  }

  /** Two projects may share a name only when they belong to different teams. */
  lemma ProjectKeysDistinct(c: Collection<Project>)
    ensures Unique(c.rows, ProjectClash) <==>
              forall i, j :: i in c.rows && j in c.rows && i != j && c.rows[i].name == c.rows[j].name ==>
                c.rows[i].team != c.rows[j].team
  {
  }

  /** Two to-do lists may share a name only when they belong to different projects. */
  lemma TodoListKeysDistinct(c: Collection<TodoList>)
    ensures Unique(c.rows, TodoListClash) <==>
              forall i, j :: i in c.rows && j in c.rows && i != j && c.rows[i].name == c.rows[j].name ==>
                c.rows[i].project != c.rows[j].project
  {
  }

  // ---------------------------------------------------------------------------
  // Queries.

  function WithGoogleId(googleId: string): User -> bool {
    (u: User) => u.googleId == googleId
  }

  function TeamNamed(name: string): Team -> bool {
    (t: Team) => t.name == name
  }

  function ProjectNamed(name: string): Project -> bool {
    (p: Project) => p.name == name
  }

  function TodoListNamed(name: string): TodoList -> bool {
    (l: TodoList) => l.name == name
  }

  /** `users__in=[user]`. */
  function HasMember(user: UserRef): Team -> bool {
    (t: Team) => user in t.users
  }

  /** `team=team`. */
  function OwnedBy(team: RecordId): Project -> bool {
    (p: Project) => p.team == Some(team)
  }

  // ---------------------------------------------------------------------------
  // Building blocks shared by the four operations.

  /** Python's `new_name or name`: the new name unless it is None or empty. */
  function NameOr(newName: Option<string>, name: string): (r: string)
    ensures r == name || newName == Some(r)
    ensures r == "" ==> name == ""
    ensures newName.Some? && newName.value != "" ==> r == newName.value
  {
    if newName.Some? && newName.value != "" then newName.value else name
  }

  function AsCreated(saved: Outcome<RecordId>): Outcome<Upserted> {
    match saved
    case Ok(id) => Ok(Upserted(id, true))
    case Err(e) => Err(e)
  }

  function AsUpdated(saved: Outcome<()>, id: RecordId): Outcome<Upserted> {
    match saved
    case Ok(_) => Ok(Upserted(id, false))
    case Err(e) => Err(e)
  }

  const UserInactive := "User with this google_id is inactive"
  const TodoListInactive := "This todo_list is inactive"
  const ProjectInactive := "This project is inactive"
  const TeamInactive := "This team is inactive."

  /** A user as `User(google_id=..., name=..., email=..., avatar=...)` builds it. */
  function NewUser(googleId: string, name: string, email: string, avatar: string, loadedAt: Timestamp): (u: User)
    ensures u.googleId == googleId && u.name == name && u.email == email && u.avatar == avatar
    ensures u.isActive && u.isAuthenticated && !u.isAnonymous
    ensures u.createdDate == loadedAt
  {
    User(googleId, name, email, avatar, true, true, false, loadedAt)
  }

  // ---------------------------------------------------------------------------
  // The create-or-update operations. `rival` is what another writer saves between
  // the lookup that misses and the insert that follows it; `fault` is an error
  // the store raises on every save of this call; `loadedAt` is the default
  // `created_date`, which is evaluated once, when the document class is defined.

  /** User.create_or_update: looked up by google_id; a failed insert is not retried. */
  ghost function UserUpsert(
    c: Collection<User>, googleId: string, name: string, email: string, avatar: string,
    reactivate: bool, rival: Option<User>, fault: Option<string>, loadedAt: Timestamp): (r: Step<Upserted, User>)
    ensures WellFormed(c, UserClash) ==> WellFormed(r.after, UserClash)
  {
    match Find(c.rows, WithGoogleId(googleId))
    case Found(id) =>
      var user := c.rows[id];
      if !user.isActive && !reactivate then Step(Err(ValidationError(UserInactive)), c)
      else
        var saved := UpdateStep(c, UserClash, id,
          user.(name := name, email := email, avatar := avatar, isActive := true), fault);
        Step(AsUpdated(saved.out, id), saved.after)
    case Ambiguous => Step(Err(MultipleObjectsReturned), c)
    case Missing =>
      var saved := InsertStep(OtherWriter(c, UserClash, rival), UserClash,
        NewUser(googleId, name, email, avatar, loadedAt), fault);
      Step(AsCreated(saved.out), saved.after)
  }

  /** Team.create_or_update: looked up by name; a duplicate key on insert re-runs
      the call as `create_or_update(name, users)`, dropping new_name and reactivate. */
  ghost function TeamUpsert(
    c: Collection<Team>, name: string, users: seq<UserRef>, newName: Option<string>,
    reactivate: bool, rival: Option<Team>, fault: Option<string>, loadedAt: Timestamp): (r: Step<Upserted, Team>)
    ensures WellFormed(c, TeamClash) ==> WellFormed(r.after, TeamClash)
    decreases if Taken(c.rows, TeamNamed(name)) then 0 else 1
  {
    match Find(c.rows, TeamNamed(name))
    case Found(id) =>
      var team := c.rows[id];
      if !team.isActive && !reactivate then Step(Err(ValidationError(TeamInactive)), c)
      else
        var saved := UpdateStep(c, TeamClash, id,
          team.(isActive := true, name := NameOr(newName, name), users := users), fault);
        Step(AsUpdated(saved.out, id), saved.after)
    case Ambiguous => Step(Err(MultipleObjectsReturned), c)
    case Missing =>
      var saved := InsertStep(OtherWriter(c, TeamClash, rival), TeamClash,
        Team(name, loadedAt, users, true), fault);
      if saved.out == Err(DuplicateKey) then
        TeamUpsert(saved.after, name, users, None, true, None, fault, loadedAt)
      else Step(AsCreated(saved.out), saved.after)
  }

  /** Team.deactivate: clears the flag and saves the team. */
  function TeamDeactivate(c: Collection<Team>, id: RecordId, fault: Option<string>): (r: Step<(), Team>)
    requires id in c.rows
    ensures WellFormed(c, TeamClash) && fault.None? ==>
              r.out.Ok? && r.after == c.(rows := c.rows[id := c.rows[id].(isActive := false)])
    ensures fault.Some? ==> r == Step(Err(OtherError(fault.value)), c)
  {
    UpdateStep(c, TeamClash, id, c.rows[id].(isActive := false), fault)
  }

  /** Project.create_or_update: looked up by name alone; new projects carry neither
      team nor description; the update leaves the team alone and does not store
      `to_do_lists`; a duplicate key on insert re-runs the call dropping new_name
      and reactivate. */
  ghost function ProjectUpsert(
    c: Collection<Project>, name: string, team: RecordId, description: string, users: seq<UserRef>,
    toDoLists: seq<RecordId>, newName: Option<string>, reactivate: bool,
    rival: Option<Project>, fault: Option<string>, loadedAt: Timestamp): (r: Step<Upserted, Project>)
    ensures WellFormed(c, ProjectClash) ==> WellFormed(r.after, ProjectClash)
    decreases if Taken(c.rows, ProjectNamed(name)) then 0 else 1
  {
    match Find(c.rows, ProjectNamed(name))
    case Found(id) =>
      var project := c.rows[id];
      if !project.isActive && !reactivate then Step(Err(ValidationError(ProjectInactive)), c)
      else
        var saved := UpdateStep(c, ProjectClash, id,
          project.(isActive := true, name := NameOr(newName, name),
                   description := Some(description), users := users), fault);
        Step(AsUpdated(saved.out, id), saved.after)
    case Ambiguous => Step(Err(MultipleObjectsReturned), c)
    case Missing =>
      var saved := InsertStep(OtherWriter(c, ProjectClash, rival), ProjectClash,
        Project(name, None, None, loadedAt, users, true), fault);
      if saved.out == Err(DuplicateKey) then
        ProjectUpsert(saved.after, name, team, description, users, toDoLists, None, true, None, fault, loadedAt)
      else Step(AsCreated(saved.out), saved.after)
  }

  /** The found branch of TodoList.create_or_update. */
  function TodoListRefresh(
    c: Collection<TodoList>, id: RecordId, name: string, project: RecordId, users: seq<UserRef>,
    newName: Option<string>, reactivate: bool, fault: Option<string>): (r: Step<Upserted, TodoList>)
    requires id in c.rows
    ensures WellFormed(c, TodoListClash) ==> WellFormed(r.after, TodoListClash)
  {
    var list := c.rows[id];
    if !list.isActive && !reactivate then Step(Err(ValidationError(TodoListInactive)), c)
    else
      var saved := UpdateStep(c, TodoListClash, id,
        list.(isActive := true, name := NameOr(newName, name), project := Some(project), users := users), fault);
      Step(AsUpdated(saved.out, id), saved.after)
  }

  /** TodoList.create_or_update with its handler read as `except TodoList.DoesNotExist`:
      looked up by name alone; new lists carry no project; a duplicate key on insert
      re-runs the call forwarding new_name and reactivate. */
  ghost function TodoListUpsert(
    c: Collection<TodoList>, name: string, project: RecordId, users: seq<UserRef>,
    newName: Option<string>, reactivate: bool,
    rival: Option<TodoList>, fault: Option<string>, loadedAt: Timestamp): (r: Step<Upserted, TodoList>)
    ensures WellFormed(c, TodoListClash) ==> WellFormed(r.after, TodoListClash)
    decreases if Taken(c.rows, TodoListNamed(name)) then 0 else 1
  {
    match Find(c.rows, TodoListNamed(name))
    case Found(id) => TodoListRefresh(c, id, name, project, users, newName, reactivate, fault)
    case Ambiguous => Step(Err(MultipleObjectsReturned), c)
    case Missing =>
      var saved := InsertStep(OtherWriter(c, TodoListClash, rival), TodoListClash,
        TodoList(name, None, loadedAt, users, [], true), fault);
      if saved.out == Err(DuplicateKey) then
        TodoListUpsert(saved.after, name, project, users, newName, reactivate, None, fault, loadedAt)
      else Step(AsCreated(saved.out), saved.after)
  }

  /** TodoList.create_or_update as written: its handler `except todo_list.DoesNotExist`
      reads `todo_list` before anything is bound to it, so every lookup that raises
      ends in an UnboundLocalError; only the found branch runs. */
  ghost function TodoListUpsertAsWritten(
    c: Collection<TodoList>, name: string, project: RecordId, users: seq<UserRef>,
    newName: Option<string>, reactivate: bool, fault: Option<string>): (r: Step<Upserted, TodoList>)
    ensures WellFormed(c, TodoListClash) ==> WellFormed(r.after, TodoListClash)
  {
    match Find(c.rows, TodoListNamed(name))
    case Found(id) => TodoListRefresh(c, id, name, project, users, newName, reactivate, fault)
    case _ => Step(Err(UnboundLocal("todo_list")), c)
  }
}
