# Project-collaboration store: a Dafny model

This project models the local store behind the Flask routes of a small
project-collaboration application, and proves properties of that model.
Users belong to projects through membership rows. A member of a project
may add other members by email, create tasks, move a task between "To-Do",
"In Progress" and "Done", and post chat messages. Every such write is
gated on the acting user's membership. The store holds users, projects,
memberships, tasks and messages. Deleting a project cascades to its tasks,
memberships and messages. Deleting a user cascades to that user's
memberships.

Layout, one module per file:

- `wrappers.dfy` (`Wrappers`): `Option`, for NULL columns and absent form fields.
- `text.dfy` (`Text`): Python's `str.strip()` and `str.lower()`, with their properties.
- `web.dfy` (`Web`): form fields and request outcomes. An outcome is a flash
  category (`Success`, `Info`, `Warning`, `Danger`), an abort (`Forbidden`
  for 403, `NotFound` for 404) or `Quiet`, a redirect that flashes nothing.
- `schema.dfy` (`Schema`): the records of models.py, the whole store as one
  value `Db`, its invariant `Valid`, and the inserts and cascading deletes.
- `projects.dfy` (`Projects`): how create-project and edit-project validate
  and normalise their fields before the row goes to the hosted table.
- `routes.dfy` (`Routes`): the membership gate and the four gated write
  routes, each a function from store to store plus outcome, and lemmas that
  relate several calls.
- `store.dfy` (`Database`): class `Store`. Its fields are the tables. Its
  methods change them in place, as the handlers do through the database
  session. Each method's postcondition says its new state and outcome are
  those of the function of the same name in `Routes` or `Schema`.

The acting user is a parameter, `actor`, of every route. It stands for
`current_user.id`. Timestamps are a parameter `now` of type `Time`.

The model follows the code as written. Where the code falls short of what it
evidently intends:

- A project's creator is evidently meant to be able to work on it, but
  creating a project records no membership for its creator. Nothing else
  creates the first membership of a project either. So from an empty store,
  every gated write is refused (`Routes.NoMembersNoWrites`).
- Foreign keys are declared but not enforced: the task and message tables
  do not check that their project exists.
  SQLite leaves foreign keys unenforced by default, and `create_task` never
  looks the project up. So the invariant has no referential-integrity
  clause. The NOT NULL columns are non-optional fields.
- The schema has no unique constraint on a (project, user) pair. The
  add-member route keeps pairs distinct by checking first; `Valid` records
  this as `DistinctMemberships`.
- The email lookup is meant to be case-insensitive, but is so only on the
  submitted side. Stored
  emails are compared as stored, so a user stored with an upper-case
  letter is never found (`Routes.AddedUserHasNormalisedEmail`).
- The project priority defaults to "Medium" only when the field is absent.
  A posted empty priority is kept as "" (`Projects.EmptyPriorityKept`).
- A task's assignee is meant to be a user, but is stored as given. Nothing
  checks that such a user exists.

## Model

| member | source | states |
|---|---|---|
| `Text.IsSpace` | app.py:183 | Python's `str.isspace` set, which `strip()` removes: the space is in it, and no printable ASCII character is |
| `Text.LowerChar` | app.py:288 | one character lowered: an ASCII capital becomes the matching small letter, anything else is kept, and no capital remains |
| `Web.Posted` | app.py:315 | `request.form.get(key) or ""`: the posted string when the field is present, else "" |
| `Schema.IsStatus` | app.py:339 | the status test `status in ("To-Do", "In Progress", "Done")`; every status it accepts is non-blank and fits the `String(50)` column |
| `Schema.Valid` | models.py:7-44 | the store invariant: emails unique, every key below its counter (so each table's next key is free), (project, user) pairs distinct, every task status one of the three, every message non-blank and already stripped |
| `Text.SkipSpace` | app.py:183 | the first index at or after `i` that is not whitespace: everything skipped is whitespace and the stopping character is not |
| `Text.SkipSpaceBack` | app.py:183 | scanning back from `j` to `lo`: everything skipped is whitespace and the character just before the stop is not |
| `Text.Strip` | app.py:183-189 | `s.strip()` is no longer than `s` and neither starts nor ends with whitespace |
| `Text.StripIsSlice` | app.py:315-317 | what `strip()` keeps is one contiguous slice of the input, with only whitespace before and after it |
| `Text.StripUntrimmed` | app.py:353 | a string that neither starts nor ends with whitespace is left unchanged by `strip()` |
| `Text.StripIdempotent` | app.py:353-356 | stripping twice equals stripping once, so stored content is its own strip |
| `Text.StripEmptyIff` | app.py:319-321 | a stripped field is blank exactly when every character of the raw field is whitespace |
| `Text.Lower` | app.py:288 | `s.lower()` has the same length as `s`, and each character is lowered (ASCII letters) |
| `Text.LowerIdempotent` | app.py:288 | a lowered string has no upper-case letter, and lowering it again changes nothing |
| `Text.LowerStripCommute` | app.py:288 | `s.lower().strip()` equals `s.strip().lower()` |
| `Routes.NormaliseEmail` | app.py:288 | the normalised email is the stripped email lowered; it has no upper-case letter and no surrounding whitespace |
| `Routes.NormaliseEmailIdempotent` | app.py:288 | normalising an already normalised email changes nothing |
| `Routes.IsMember` | app.py:216-219 | the gate passes exactly when a membership row for (project, user) exists |
| `Routes.UserWithEmail` | app.py:289 | finds a user exactly when one is stored with exactly that email, and returns that user's id |
| `Routes.AddMember` | app.py:284-300 | Forbidden, changing nothing, iff the actor is not a member. Warning iff no user has the normalised email. Info iff that user is already a member. Otherwise exactly one membership (project, user) is added under a fresh key, nothing else changes, and the invariant is kept |
| `Routes.AddMemberIdempotent` | app.py:293-299 | after a call that added or found the pair, the same call reports Info and leaves the store as it is |
| `Routes.AddedUserHasNormalisedEmail` | app.py:288-292 | a user added by email has a stored email that is already lower-case and stripped |
| `Routes.CreateTask` | app.py:311-330 | Forbidden iff not a member. Warning iff the stripped title is blank. Neither changes anything. Otherwise exactly one task under a fresh key: this project, status "To-Do", stripped title, description and due date, the given assignee. Existing tasks are untouched and the invariant is kept |
| `Routes.UpdateTaskStatus` | app.py:332-346 | NotFound iff there is no such task. Forbidden iff the actor is not a member of the task's own project. Success iff the posted status is "To-Do", "In Progress" or "Done", and then only that task's status changes. Any other value is Danger with nothing changed |
| `Routes.SendMessage` | app.py:349-358 | flashes nothing. Forbidden iff not a member. Blank stripped content appends nothing. Otherwise exactly one message is appended: this project, by the actor, stripped content, time of posting |
| `Routes.NoMembersNoWrites` | app.py:196-206 | with no membership rows, which is what creating projects leaves, every gated write is refused and changes nothing |
| `Routes.PostThenDeleteProject` | models.py:21 | deleting a project after a post leaves the same messages as deleting it before the post, plus the new message only if it went to another project |
| `Schema.InsertUser` | models.py:7-11 | refused, changing nothing, exactly when the email is already taken. Otherwise one user row under a fresh key, and emails stay unique |
| `Schema.InsertProject` | models.py:15-18 | one project row under a fresh key, nothing else changes |
| `Schema.MessagesOutside` | models.py:21 | keeps no message of the project and every other message with its multiplicity |
| `Schema.MessagesOutsideAppend` | models.py:21 | filtering out a project's messages distributes over appending a message |
| `Schema.KeepRows` | models.py:19-20 | what a cascade leaves of a child table: exactly the rows that do not reference the deleted parent, unchanged |
| `Schema.DeleteProject` | models.py:15-21 | removes the project, every task, membership and message of it and nothing else. Users and key counters are unchanged. The invariant is kept |
| `Schema.DeleteUser` | models.py:7-13 | removes the user and exactly that user's memberships. Tasks and messages that mention the user stay. The invariant is kept |
| `Schema.EmptyValid` | models.py:5 | the empty database satisfies the invariant |
| `Projects.OrNone` | app.py:201 | `s or None`: None exactly for the empty string |
| `Projects.ReadFields` | app.py:183-188 | the name, description, tags and manager are the stripped posted fields. The deadline is None exactly when the stripped deadline is blank, else that string. The priority is "Medium" when absent, else exactly as posted |
| `Projects.CreateProjectRecord` | app.py:183-206 | refused with Warning exactly when the stripped name is blank. Otherwise the normalised fields, the stripped image URL, `created_by` set to the actor and the creation time |
| `Projects.EditProjectRecord` | app.py:234-254 | refused with Warning exactly when the stripped name is blank. Otherwise the normalised fields and the update time |
| `Projects.BlankNameRefused` | app.py:191-193 | a name made only of whitespace is refused by both create and edit |
| `Projects.StoredNameStable` | app.py:241-243 | a name accepted by create is accepted unchanged when resubmitted to edit |
| `Projects.LaunchScenario` | app.py:196-206 | creating {name "Launch", priority "High"} as user 1 gives priority "High", no deadline and creator 1 |
| `Projects.EmptyPriorityKept` | app.py:188 | a posted empty priority stays "", because the default applies only to an absent field |
| `Database.Store.constructor` | app.py:43-44 | a new store is empty and valid |
| `Database.Store.InsertUser` | models.py:10 | the user table changes as `Schema.InsertUser` says and the invariant is kept |
| `Database.Store.InsertProject` | models.py:15-18 | the project table changes as `Schema.InsertProject` says |
| `Database.Store.AddMember` | app.py:284-300 | new state and outcome are those of `Routes.AddMember` on the old state |
| `Database.Store.CreateTask` | app.py:311-330 | new state and outcome are those of `Routes.CreateTask` on the old state |
| `Database.Store.UpdateTaskStatus` | app.py:332-346 | new state and outcome are those of `Routes.UpdateTaskStatus` on the old state |
| `Database.Store.SendMessage` | app.py:349-358 | new state and outcome are those of `Routes.SendMessage` on the old state |
| `Database.Store.DeleteProject` | models.py:19-21 | new state is `Schema.DeleteProject` of the old state: the cascade to tasks, memberships and messages |
| `Database.Store.DeleteUser` | models.py:13 | new state is `Schema.DeleteUser` of the old state: the cascade to memberships |
| `Database.AddMemberTwice` | app.py:293-299 | posting the same add-member form twice: if the first post added or found the pair, the second reports Info; otherwise both report the same and nothing changes. Either way the store afterwards is the store after one post |

## Left out

- Authentication and profiles (`login`, `register`, `load_user`, `SupabaseUser`, `logout`): these call a hosted identity service whose behaviour is not visible here.
- The hosted project table (`dashboard`, `projects`, `project_detail`, the update in `edit_project`, `delete_project`): these are remote calls. Only the field handling before them is modelled. So the Success and Danger outcomes of create and edit, which depend on the remote reply, are not modelled.
- The acting user's identity: in the source, `current_user.id` is the hosted service's UUID string, while `user_id` columns are integers. In SQLite such a string never equals an integer `user_id`, so `_require_membership` as written never passes for a signed-in user. The model's integer actor stands for the membership gate the code evidently intends.
- `task_board`, `main_dashboard` and the GET branch of `task_detail`: read-only pages.
- Rendering, redirects, `flash`, `url_for`, `login_required` and the static pages: framework plumbing. Their effect is reduced to an `Outcome`.
- `int(assignee_id)`: the assignee is taken already parsed, as `Option<int>`, so a negative number is kept as the column would store it. A non-numeric value, which raises in the source, is not modelled.
- forms.py: WTForms validators whose meaning lives in a library that is not part of this model.
- Timestamps: `datetime.utcnow()` is the parameter `now`, and `isoformat()` is not modelled.
- Key allocation: SQLite picks a fresh integer key. The model uses one counter per table, so keys it hands out are never reused.
- Message ids: messages are kept in insertion order without their integer key.
- The `Task.status` column default "To-Do": `create_task` always sets the status explicitly, so the default never takes effect and is not modelled separately.
- Column lengths (`String(120)` and so on): SQLite does not enforce them.
- The nullable foreign keys of `ProjectMember`: no route creates a membership with a NULL project or user, so both are plain ids.
- `Text.Lower`: lowers the ASCII letters only, unlike Python's full Unicode `str.lower()`.
- Concurrency and transactions: each route is one atomic step.
