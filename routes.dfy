/**
 * The membership-gated routes that write to the local store, as transitions
 * from one store to the next: add a member, create a task, set a task's
 * status, post a chat message. Each takes the acting user's id where the
 * handler reads `current_user.id`.
 */
module Routes {
  import opened Wrappers
  import opened Text
  import opened Web
  import opened Schema

  /** The store after a request and the request's outcome. */
  datatype Reply = Reply(db: Db, outcome: Outcome)

  /** `ProjectMember.query.filter_by(project_id=…, user_id=…).first()` finds a row. */
  predicate IsMember(members: map<Id, Membership>, projectId: Id, userId: Id)
    ensures IsMember(members, projectId, userId) <==> Membership(projectId, userId) in members.Values
  {
    exists k :: k in members && members[k].projectId == projectId && members[k].userId == userId
  }

  /** The email the add-member route looks up: `(email or "").lower().strip()`. */
  function NormaliseEmail(email: string): (r: string)
    ensures r == Lower(Strip(email))
    ensures forall i :: 0 <= i < |r| ==> !('A' <= r[i] <= 'Z')
    ensures r != [] ==> !IsSpace(r[0]) && !IsSpace(r[|r| - 1])
  {
    LowerStripCommute(email);
    LowerIdempotent(Strip(email));
    Strip(Lower(email))
  }

  /** Normalising an already normalised email changes nothing. */
  lemma NormaliseEmailIdempotent(email: string)
    ensures NormaliseEmail(NormaliseEmail(email)) == NormaliseEmail(email)
  {
    var t := NormaliseEmail(email);
    assert Lower(t) == t;
    StripIdempotent(Lower(email));
  }

  /** `User.query.filter_by(email=…).first()`: the user stored with exactly this email, if any. */
  function UserWithEmail(users: map<Id, User>, email: string): (r: Option<Id>)
    requires UniqueEmails(users)
    ensures r.None? <==> forall k :: k in users ==> users[k].email != email
    ensures r.Some? ==> r.value in users && users[r.value].email == email
  {
    if exists k :: k in users && users[k].email == email then
      Some(var k :| k in users && users[k].email == email; k)
    else
      None
  }

  /** The add-member form. */
  datatype MemberForm = MemberForm(email: Field)

  /**
   * POST /project/<id>/member/add. Forbidden, changing nothing, unless the
   * actor is a member; a warning when no user has the normalised email; info
   * when that user is already a member; otherwise exactly one membership row,
   * for that user and project, is added and nothing else changes.
   */
  function AddMember(db: Db, actor: Id, projectId: Id, form: MemberForm): (r: Reply)
    requires Valid(db)
    ensures Valid(r.db)
    ensures r.outcome in {Success, Info, Warning, Forbidden}
    ensures r.outcome == Forbidden <==> !IsMember(db.members, projectId, actor)
    ensures r.outcome == Warning <==>
      IsMember(db.members, projectId, actor) && UserWithEmail(db.users, NormaliseEmail(Posted(form.email))).None?
    ensures r.outcome == Info <==>
      && IsMember(db.members, projectId, actor)
      && UserWithEmail(db.users, NormaliseEmail(Posted(form.email))).Some?
      && IsMember(db.members, projectId, UserWithEmail(db.users, NormaliseEmail(Posted(form.email))).value)
    ensures r.outcome != Success ==> r.db == db
    ensures r.outcome == Success ==>
      && db.nextMember !in db.members
      && var user := UserWithEmail(db.users, NormaliseEmail(Posted(form.email))).value;
      && db.users[user].email == NormaliseEmail(Posted(form.email))
      && r.db.members == db.members[db.nextMember := Membership(projectId, user)]
      && r.db == db.(members := r.db.members, nextMember := db.nextMember + 1)
  {
    if !IsMember(db.members, projectId, actor) then Reply(db, Forbidden)
    else
      var email := NormaliseEmail(Posted(form.email));
      match UserWithEmail(db.users, email)
      case None => Reply(db, Warning)
      case Some(user) =>
        if IsMember(db.members, projectId, user) then Reply(db, Info)
        else
          var members := db.members[db.nextMember := Membership(projectId, user)];
          assert DistinctMemberships(members);
          Reply(db.(members := members, nextMember := db.nextMember + 1), Success)
  }

  /**
   * Adding the same email to the same project again reports "already a
   * member" and adds nothing: the first call leaves either the pair recorded
   * or the store unchanged.
   */
  lemma AddMemberIdempotent(db: Db, actor: Id, projectId: Id, form: MemberForm)
    requires Valid(db)
    requires AddMember(db, actor, projectId, form).outcome in {Success, Info}
    ensures var once := AddMember(db, actor, projectId, form);
      AddMember(once.db, actor, projectId, form) == Reply(once.db, Info)
  {
    var once := AddMember(db, actor, projectId, form);
    var user := UserWithEmail(db.users, NormaliseEmail(Posted(form.email))).value;
    if once.outcome == Success {
      assert once.db.members[db.nextMember] == Membership(projectId, user);
      assert IsMember(once.db.members, projectId, user);
      var k :| k in db.members && db.members[k].projectId == projectId && db.members[k].userId == actor;
      assert once.db.members[k] == db.members[k];
      assert IsMember(once.db.members, projectId, actor);
    }
  }

  /**
   * The lookup lowers and strips only the submitted email, not the stored
   * one: a user whose stored email is not already in that form (say it has
   * an upper-case letter) is never added by this route.
   */
  lemma AddedUserHasNormalisedEmail(db: Db, actor: Id, projectId: Id, form: MemberForm)
    requires Valid(db)
    requires AddMember(db, actor, projectId, form).outcome == Success
    ensures var user := AddMember(db, actor, projectId, form).db.members[db.nextMember].userId;
      user in db.users && NormaliseEmail(db.users[user].email) == db.users[user].email
  {
    NormaliseEmailIdempotent(Posted(form.email));
  }

  /**
   * The create-task form; the assignee is the already parsed `int(assignee_id)`,
   * None when blank or absent. `int()` accepts a negative number, and the
   * Integer column stores it.
   */
  datatype TaskForm = TaskForm(title: Field, description: Field, dueDate: Field, assignee: Option<int>)

  /**
   * POST /project/<id>/task/create. Forbidden, changing nothing, unless the
   * actor is a member; a warning, changing nothing, when the stripped title is
   * blank; otherwise exactly one task row is added under a fresh key: in this
   * project, status "To-Do", with the stripped title, description and due
   * date and the given assignee.
   */
  function CreateTask(db: Db, actor: Id, projectId: Id, form: TaskForm): (r: Reply)
    requires Valid(db)
    ensures Valid(r.db)
    ensures r.outcome in {Success, Warning, Forbidden}
    ensures r.outcome == Forbidden <==> !IsMember(db.members, projectId, actor)
    ensures r.outcome == Warning <==> IsMember(db.members, projectId, actor) && Strip(Posted(form.title)) == ""
    ensures r.outcome != Success ==> r.db == db
    ensures r.outcome == Success ==>
      && db.nextTask !in db.tasks
      && r.db.tasks.Keys == db.tasks.Keys + {db.nextTask}
      && r.db.tasks[db.nextTask] == Task(
           projectId,
           Strip(Posted(form.title)),
           Some(Strip(Posted(form.description))),
           "To-Do",
           Some(Strip(Posted(form.dueDate))),
           form.assignee)
      && r.db.tasks[db.nextTask].title != ""
      && (forall k :: k in db.tasks ==> r.db.tasks[k] == db.tasks[k])
      && r.db == db.(tasks := r.db.tasks, nextTask := db.nextTask + 1)
  {
    if !IsMember(db.members, projectId, actor) then Reply(db, Forbidden)
    else
      var title := Strip(Posted(form.title));
      var description := Strip(Posted(form.description));
      var dueDate := Strip(Posted(form.dueDate));
      if title == "" then Reply(db, Warning)
      else
        var task := Task(projectId, title, Some(description), "To-Do", Some(dueDate), form.assignee);
        var tasks := db.tasks[db.nextTask := task];
        assert db.nextTask !in db.tasks;
        assert CanonicalStatuses(tasks) && KeysBelow(tasks, db.nextTask + 1);
        Reply(db.(tasks := tasks, nextTask := db.nextTask + 1), Success)
  }

  /**
   * POST /task/<id>. Not found when there is no such task; forbidden unless
   * the actor is a member of the task's own project; a danger message leaving
   * the store unchanged unless the posted status is "To-Do", "In Progress" or
   * "Done"; otherwise that status is stored on the task, and only there.
   */
  function UpdateTaskStatus(db: Db, actor: Id, taskId: Id, status: Field): (r: Reply)
    requires Valid(db)
    ensures Valid(r.db)
    ensures r.outcome in {Success, Danger, Forbidden, NotFound}
    ensures r.outcome == NotFound <==> taskId !in db.tasks
    ensures r.outcome == Forbidden <==> taskId in db.tasks && !IsMember(db.members, db.tasks[taskId].projectId, actor)
    ensures r.outcome == Success <==>
      taskId in db.tasks && IsMember(db.members, db.tasks[taskId].projectId, actor) && status.Some? && IsStatus(status.value)
    ensures r.outcome != Success ==> r.db == db
    ensures r.outcome == Success ==> r.db == db.(tasks := db.tasks[taskId := db.tasks[taskId].(status := status.value)])
  {
    if taskId !in db.tasks then Reply(db, NotFound)
    else
      var task := db.tasks[taskId];
      if !IsMember(db.members, task.projectId, actor) then Reply(db, Forbidden)
      else if status.Some? && IsStatus(status.value) then
        Reply(db.(tasks := db.tasks[taskId := task.(status := status.value)]), Success)
      else
        Reply(db, Danger)
  }

  /** The chat form. */
  datatype ChatForm = ChatForm(content: Field)

  /**
   * POST /project/<id>/chat. Flashes nothing in any case. Forbidden, changing
   * nothing, unless the actor is a member; blank stripped content is dropped;
   * otherwise exactly one message is appended: in this project, by the actor,
   * with the stripped content and the time of posting.
   */
  function SendMessage(db: Db, actor: Id, projectId: Id, form: ChatForm, now: Time): (r: Reply)
    requires Valid(db)
    ensures Valid(r.db)
    ensures r.outcome in {Quiet, Forbidden}
    ensures r.outcome == Forbidden <==> !IsMember(db.members, projectId, actor)
    ensures r.outcome == Forbidden || Strip(Posted(form.content)) == "" ==> r.db == db
    ensures r.outcome == Quiet && Strip(Posted(form.content)) != "" ==>
      r.db == db.(messages := db.messages + [Message(projectId, actor, Strip(Posted(form.content)), now)])
  {
    if !IsMember(db.members, projectId, actor) then Reply(db, Forbidden)
    else
      var content := Strip(Posted(form.content));
      if content == "" then Reply(db, Quiet)
      else
        StripIdempotent(Posted(form.content));
        Reply(db.(messages := db.messages + [Message(projectId, actor, content, now)]), Quiet)
  }

  /**
   * No route creates the first membership of a project (creating a project
   * records none), so in a store without memberships every gated write is
   * refused and changes nothing.
   */
  lemma NoMembersNoWrites(db: Db, actor: Id, projectId: Id, taskId: Id, now: Time,
                          member: MemberForm, task: TaskForm, status: Field, chat: ChatForm)
    requires Valid(db) && db.members == map[]
    ensures AddMember(db, actor, projectId, member) == Reply(db, Forbidden)
    ensures CreateTask(db, actor, projectId, task) == Reply(db, Forbidden)
    ensures UpdateTaskStatus(db, actor, taskId, status).db == db
    ensures UpdateTaskStatus(db, actor, taskId, status).outcome in {Forbidden, NotFound}
    ensures SendMessage(db, actor, projectId, chat, now) == Reply(db, Forbidden)
  {
  }

  /**
   * Deleting a project after posting to it leaves exactly the messages that
   * deleting it beforehand leaves: the cascade takes the new message too.
   * A message posted to another project survives the delete.
   */
  lemma PostThenDeleteProject(db: Db, actor: Id, target: Id, deleted: Id, form: ChatForm, now: Time)
    requires Valid(db) && deleted in db.projects
    ensures var posted := SendMessage(db, actor, target, form, now);
      && deleted in posted.db.projects
      && DeleteProject(posted.db, deleted).messages ==
           if target == deleted || posted.db == db then DeleteProject(db, deleted).messages
           else DeleteProject(db, deleted).messages + [posted.db.messages[|db.messages|]]
  {
    var posted := SendMessage(db, actor, target, form, now);
    if posted.db != db {
      var m := Message(target, actor, Strip(Posted(form.content)), now);
      assert posted.db.messages == db.messages + [m];
      MessagesOutsideAppend(db.messages, m, deleted);
    }
  }
}
