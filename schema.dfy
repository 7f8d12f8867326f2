/**
 * The local relational store of models.py: the `User`, `Project`,
 * `ProjectMember`, `Task` and `Message` tables, their NOT NULL and UNIQUE
 * columns, and the cascades that deleting a project or a user triggers.
 * Each table is a map from primary key to row; messages are kept in
 * insertion order.
 */
module Schema {
  import opened Wrappers
  import Text

  /** An `Integer` primary or foreign key. */
  type Id = nat

  /** A `DateTime` value, as an opaque instant. */
  type Time = nat

  /** A `user` row; name, email and password are NOT NULL, email is UNIQUE. */
  datatype User = User(name: string, email: string, password: string)

  /** A `project` row; name is NOT NULL, description may be NULL. */
  datatype Project = Project(name: string, description: Option<string>)

  /** A `project_member` row: which user belongs to which project. */
  datatype Membership = Membership(projectId: Id, userId: Id)

  /** A `task` row; project and title are NOT NULL, the rest may be NULL. */
  datatype Task = Task(
    projectId: Id,
    title: string,
    description: Option<string>,
    status: string,
    dueDate: Option<string>,
    assigneeId: Option<int>)

  /** A `message` row; project, author and content are NOT NULL. */
  datatype Message = Message(projectId: Id, userId: Id, content: string, timestamp: Time)

  /** The three task statuses the task-detail form accepts; each is non-blank and fits the `String(50)` column. */
  predicate IsStatus(s: string)
    ensures IsStatus(s) ==> s != "" && |s| <= 50
  {
    s == "To-Do" || s == "In Progress" || s == "Done"
  }

  /**
   * The whole store. `nextUser` … `nextTask` are the keys the database hands
   * out to the next row inserted into each table.
   */
  datatype Db = Db(
    users: map<Id, User>,
    projects: map<Id, Project>,
    members: map<Id, Membership>,
    tasks: map<Id, Task>,
    messages: seq<Message>,
    nextUser: Id,
    nextProject: Id,
    nextMember: Id,
    nextTask: Id)

  /** The store before any row is inserted. */
  const EMPTY: Db := Db(map[], map[], map[], map[], [], 0, 0, 0, 0)

  /** The UNIQUE constraint on `user.email`. */
  ghost predicate UniqueEmails(users: map<Id, User>) {
    forall i, j :: i in users && j in users && users[i].email == users[j].email ==> i == j
  }

  /** Every key in use is below the next key to be handed out. */
  ghost predicate KeysBelow<V>(m: map<Id, V>, next: Id) {
    forall k :: k in m ==> k < next
  }

  /**
   * No (project, user) pair is recorded twice. The schema has no constraint on
   * the pair; the add-member route keeps it by checking first.
   */
  ghost predicate DistinctMemberships(members: map<Id, Membership>) {
    forall i, j :: i in members && j in members && members[i] == members[j] ==> i == j
  }

  /** Every stored task has one of the three statuses (kept by the task routes). */
  ghost predicate CanonicalStatuses(tasks: map<Id, Task>) {
    forall k :: k in tasks ==> IsStatus(tasks[k].status)
  }

  /** Every stored message has non-blank, already stripped content (kept by the chat route). */
  ghost predicate StrippedContents(messages: seq<Message>) {
    forall m :: m in messages ==> m.content != "" && Text.Strip(m.content) == m.content
  }

  /**
   * The invariant of the store: the schema's constraints and what the routes
   * maintain. In particular the next key of every table is free.
   */
  ghost predicate Valid(db: Db)
    ensures Valid(db) ==>
      && db.nextUser !in db.users && db.nextProject !in db.projects
      && db.nextMember !in db.members && db.nextTask !in db.tasks
  {
    && UniqueEmails(db.users)
    && KeysBelow(db.users, db.nextUser)
    && KeysBelow(db.projects, db.nextProject)
    && KeysBelow(db.members, db.nextMember)
    && KeysBelow(db.tasks, db.nextTask)
    && DistinctMemberships(db.members)
    && CanonicalStatuses(db.tasks)
    && StrippedContents(db.messages)
  }

  lemma EmptyValid()
    ensures Valid(EMPTY)
  {
  }

  /** The result of an INSERT: the new store and the key of the new row, or None when a constraint refused it. */
  datatype Inserted = Inserted(db: Db, id: Option<Id>)

  /**
   * INSERT into `user`: refused, changing nothing, exactly when another user
   * already has that email; otherwise the one new row gets a fresh key.
   */
  function InsertUser(db: Db, user: User): (r: Inserted)
    requires Valid(db)
    ensures Valid(r.db)
    ensures r.id.None? <==> exists k :: k in db.users && db.users[k].email == user.email
    ensures r.id.None? ==> r.db == db
    ensures r.id.Some? ==>
      && r.id.value !in db.users
      && r.db.users == db.users[r.id.value := user]
      && r.db == db.(users := r.db.users, nextUser := r.db.nextUser)
  {
    if exists k :: k in db.users && db.users[k].email == user.email then
      Inserted(db, None)
    else
      Inserted(db.(users := db.users[db.nextUser := user], nextUser := db.nextUser + 1), Some(db.nextUser))
  }

  /** INSERT into `project`: always accepted; the one new row gets a fresh key. */
  function InsertProject(db: Db, project: Project): (r: Inserted)
    requires Valid(db)
    ensures Valid(r.db)
    ensures r.id.Some? && r.id.value !in db.projects
    ensures r.db.projects == db.projects[r.id.value := project]
    ensures r.db == db.(projects := r.db.projects, nextProject := r.db.nextProject)
  {
    Inserted(db.(projects := db.projects[db.nextProject := project], nextProject := db.nextProject + 1), Some(db.nextProject))
  }

  /**
   * The messages not posted to `projectId`, in their original order; each
   * other message keeps its multiplicity.
   */
  function MessagesOutside(messages: seq<Message>, projectId: Id): (r: seq<Message>)
    ensures forall m :: m in r ==> m.projectId != projectId
    ensures forall m: Message :: m.projectId != projectId ==> multiset(r)[m] == multiset(messages)[m]
    ensures forall m :: m in r ==> m in messages
  {
    if messages == [] then []
    else
      var init := messages[..|messages| - 1];
      var last := messages[|messages| - 1];
      assert messages == init + [last];
      var rest := MessagesOutside(init, projectId);
      if last.projectId == projectId then rest else rest + [last]
  }

  /** Filtering distributes over appending one message. */
  lemma MessagesOutsideAppend(messages: seq<Message>, m: Message, projectId: Id)
    ensures MessagesOutside(messages + [m], projectId)
         == MessagesOutside(messages, projectId) + (if m.projectId == projectId then [] else [m])
  {
    assert (messages + [m])[..|messages + [m]| - 1] == messages;
  }

  /** The rows of `table` that satisfy `keep`, unchanged: what a cascading delete leaves of a child table. */
  function KeepRows<R>(table: map<Id, R>, keep: R -> bool): (r: map<Id, R>)
    ensures forall k :: k in r <==> k in table && keep(table[k])
    ensures forall k :: k in r ==> r[k] == table[k]
  {
    map k | k in table && keep(table[k]) :: table[k]
  }

  /**
   * Deleting a project row. With `cascade="all, delete-orphan"` on
   * `Project.tasks`, `Project.members` and `Project.messages`, the rows of all
   * three that reference the project go with it, and nothing else changes.
   */
  function DeleteProject(db: Db, projectId: Id): (r: Db)
    requires Valid(db) && projectId in db.projects
    ensures Valid(r)
    ensures r.projects.Keys == db.projects.Keys - {projectId}
    ensures forall k :: k in r.projects ==> r.projects[k] == db.projects[k]
    ensures forall k :: k in r.tasks <==> k in db.tasks && db.tasks[k].projectId != projectId
    ensures forall k :: k in r.tasks ==> r.tasks[k] == db.tasks[k]
    ensures forall k :: k in r.members <==> k in db.members && db.members[k].projectId != projectId
    ensures forall k :: k in r.members ==> r.members[k] == db.members[k]
    ensures forall m :: m in r.messages ==> m.projectId != projectId
    ensures forall m: Message :: m.projectId != projectId ==> multiset(r.messages)[m] == multiset(db.messages)[m]
    ensures r.users == db.users
    ensures (r.nextUser, r.nextProject, r.nextMember, r.nextTask) == (db.nextUser, db.nextProject, db.nextMember, db.nextTask)
  {
    db.(
      projects := db.projects - {projectId},
      tasks := KeepRows(db.tasks, (t: Task) => t.projectId != projectId),
      members := KeepRows(db.members, (m: Membership) => m.projectId != projectId),
      messages := MessagesOutside(db.messages, projectId))
  }

  /**
   * Deleting a user row. With `cascade="all, delete-orphan"` on
   * `User.memberships`, the user's membership rows go with it. Tasks assigned
   * to the user and messages the user wrote have no cascade and stay.
   */
  function DeleteUser(db: Db, userId: Id): (r: Db)
    requires Valid(db) && userId in db.users
    ensures Valid(r)
    ensures r.users.Keys == db.users.Keys - {userId}
    ensures forall k :: k in r.users ==> r.users[k] == db.users[k]
    ensures forall k :: k in r.members <==> k in db.members && db.members[k].userId != userId
    ensures forall k :: k in r.members ==> r.members[k] == db.members[k]
    ensures r == db.(users := r.users, members := r.members)
  {
    db.(
      users := db.users - {userId},
      members := KeepRows(db.members, (m: Membership) => m.userId != userId))
  }
}
