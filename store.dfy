/**
 * The store as the handlers use it: an object whose tables the routes
 * update in place through the database session (`db.session.add`,
 * `commit`, and assignment to a loaded row). Each method's effect is the
 * transition of the same name in Schema or Routes.
 */
module Database {
  import opened Wrappers
  import opened Text
  import opened Web
  import opened Schema
  import Routes

  class Store {
    var users: map<Id, User>
    var projects: map<Id, Project>
    var members: map<Id, Membership>
    var tasks: map<Id, Task>
    var messages: seq<Message>
    var nextUser: Id
    var nextProject: Id
    var nextMember: Id
    var nextTask: Id

    /** The tables as one value. */
    function Snapshot(): Db
      reads this
    {
      Db(users, projects, members, tasks, messages, nextUser, nextProject, nextMember, nextTask)
    }

    ghost predicate Valid()
      reads this
    {
      Schema.Valid(Snapshot())
    }

    /** The database on first start, before any row exists. */
    constructor ()
      ensures Valid() && Snapshot() == EMPTY
    {
      users, projects, members, tasks, messages := map[], map[], map[], map[], [];
      nextUser, nextProject, nextMember, nextTask := 0, 0, 0, 0;
    }

    /** Adds a user row unless the email is taken (the UNIQUE constraint). */
    method InsertUser(user: User) returns (id: Option<Id>)
      requires Valid()
      modifies this
      ensures Valid()
      ensures Schema.InsertUser(old(Snapshot()), user) == Inserted(Snapshot(), id)
    {
      if exists k :: k in users && users[k].email == user.email {
        return None;
      }
      id := Some(nextUser);
      users := users[nextUser := user];
      nextUser := nextUser + 1;
    }

    /** Adds a project row. */
    method InsertProject(project: Project) returns (id: Option<Id>)
      requires Valid()
      modifies this
      ensures Valid()
      ensures Schema.InsertProject(old(Snapshot()), project) == Inserted(Snapshot(), id)
    {
      id := Some(nextProject);
      projects := projects[nextProject := project];
      nextProject := nextProject + 1;
    }

    /** `add_member`: gate, look the user up by normalised email, add the membership if it is new. */
    method AddMember(actor: Id, projectId: Id, form: Routes.MemberForm) returns (outcome: Outcome)
      requires Valid()
      modifies this
      ensures Valid()
      ensures Routes.AddMember(old(Snapshot()), actor, projectId, form) == Routes.Reply(Snapshot(), outcome)
    {
      ghost var after := Routes.AddMember(Snapshot(), actor, projectId, form);
      if !Routes.IsMember(members, projectId, actor) {
        return Forbidden;
      }
      var email := Routes.NormaliseEmail(Posted(form.email));
      var user := Routes.UserWithEmail(users, email);
      if user.None? {
        return Warning;
      }
      if Routes.IsMember(members, projectId, user.value) {
        return Info;
      }
      assert after.outcome == Success;
      members := members[nextMember := Membership(projectId, user.value)];
      nextMember := nextMember + 1;
      outcome := Success;
      assert Snapshot() == after.db;
    }

    /** `create_task`: gate, strip the fields, refuse a blank title, add a "To-Do" task. */
    method CreateTask(actor: Id, projectId: Id, form: Routes.TaskForm) returns (outcome: Outcome)
      requires Valid()
      modifies this
      ensures Valid()
      ensures Routes.CreateTask(old(Snapshot()), actor, projectId, form) == Routes.Reply(Snapshot(), outcome)
    {
      if !Routes.IsMember(members, projectId, actor) {
        return Forbidden;
      }
      var title := Strip(Posted(form.title));
      var description := Strip(Posted(form.description));
      var dueDate := Strip(Posted(form.dueDate));
      if title == "" {
        return Warning;
      }
      ghost var after := Routes.CreateTask(Snapshot(), actor, projectId, form);
      assert after.outcome == Success;
      tasks := tasks[nextTask := Task(projectId, title, Some(description), "To-Do", Some(dueDate), form.assignee)];
      nextTask := nextTask + 1;
      outcome := Success;
      assert Snapshot() == after.db;
    }

    /** `task_detail` on POST: load the task, gate on its project, store the status if it is one of the three. */
    method UpdateTaskStatus(actor: Id, taskId: Id, status: Field) returns (outcome: Outcome)
      requires Valid()
      modifies this
      ensures Valid()
      ensures Routes.UpdateTaskStatus(old(Snapshot()), actor, taskId, status) == Routes.Reply(Snapshot(), outcome)
    {
      if taskId !in tasks {
        return NotFound;
      }
      var task := tasks[taskId];
      if !Routes.IsMember(members, task.projectId, actor) {
        return Forbidden;
      }
      if status.Some? && IsStatus(status.value) {
        tasks := tasks[taskId := task.(status := status.value)];
        outcome := Success;
      } else {
        outcome := Danger;
      }
    }

    /** `send_message`: gate, strip the content, append it unless it is blank. */
    method SendMessage(actor: Id, projectId: Id, form: Routes.ChatForm, now: Time) returns (outcome: Outcome)
      requires Valid()
      modifies this
      ensures Valid()
      ensures Routes.SendMessage(old(Snapshot()), actor, projectId, form, now) == Routes.Reply(Snapshot(), outcome)
    {
      if !Routes.IsMember(members, projectId, actor) {
        return Forbidden;
      }
      var content := Strip(Posted(form.content));
      if content != "" {
        messages := messages + [Message(projectId, actor, content, now)];
      }
      outcome := Quiet;
    }

    /** Deletes a project row and, by cascade, its tasks, memberships and messages. */
    method DeleteProject(projectId: Id)
      requires Valid() && projectId in projects
      modifies this
      ensures Valid()
      ensures Snapshot() == Schema.DeleteProject(old(Snapshot()), projectId)
    {
      ghost var after := Schema.DeleteProject(Snapshot(), projectId);
      projects := projects - {projectId};
      tasks := KeepRows(tasks, (t: Task) => t.projectId != projectId);
      members := KeepRows(members, (m: Membership) => m.projectId != projectId);
      messages := MessagesOutside(messages, projectId);
      assert Snapshot() == after;
    }

    /** Deletes a user row and, by cascade, the user's memberships. */
    method DeleteUser(userId: Id)
      requires Valid() && userId in users
      modifies this
      ensures Valid()
      ensures Snapshot() == Schema.DeleteUser(old(Snapshot()), userId)
    {
      ghost var after := Schema.DeleteUser(Snapshot(), userId);
      users := users - {userId};
      members := KeepRows(members, (m: Membership) => m.userId != userId);
      assert Snapshot() == after;
    }
  }

  /**
   * Two posts of the same add-member form: the second reports "already a
   * member" and leaves the memberships as the first left them.
   */
  method AddMemberTwice(store: Store, actor: Id, projectId: Id, form: Routes.MemberForm)
    returns (first: Outcome, second: Outcome)
    requires store.Valid()
    modifies store
    ensures store.Valid()
    ensures first in {Success, Info} ==> second == Info
    ensures store.Snapshot() == Routes.AddMember(old(store.Snapshot()), actor, projectId, form).db
    ensures first !in {Success, Info} ==> second == first && store.Snapshot() == old(store.Snapshot())
  {
    first := store.AddMember(actor, projectId, form);
    second := store.AddMember(actor, projectId, form);
    if first in {Success, Info} {
      Routes.AddMemberIdempotent(old(store.Snapshot()), actor, projectId, form);
    }
  }
}
