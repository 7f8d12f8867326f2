/**
 * The field handling of the create-project and edit-project routes: read the
 * form, strip the text fields, refuse a blank name, turn an empty deadline
 * into NULL and default the priority. The row is then sent to the hosted
 * project table, which is not part of this model.
 */
module Projects {
  import opened Wrappers
  import opened Schema
  import opened Text
  import opened Web

  /** The fields of the create and edit forms. */
  datatype ProjectForm = ProjectForm(
    name: Field,
    description: Field,
    tags: Field,
    manager: Field,
    deadline: Field,
    priority: Field,
    imageUrl: Field)

  /** The fields that create and edit derive the same way. */
  datatype Fields = Fields(
    name: string,
    description: string,
    tags: string,
    manager: string,
    deadline: Option<string>,
    priority: string)

  /** The row the create route inserts. */
  datatype NewProject = NewProject(fields: Fields, imageUrl: string, createdBy: Id, createdAt: Time)

  /** The changes the edit route writes. */
  datatype ProjectUpdate = ProjectUpdate(fields: Fields, updatedAt: Time)

  /** A record ready to be written, or the flash category of the refusal. */
  datatype Checked<T> = Accepted(record: T) | Rejected(outcome: Outcome)

  /** Python's `s or None` on a string: the empty string becomes None. */
  function OrNone(s: string): (r: Option<string>)
    ensures r.None? <==> s == ""
    ensures r.Some? ==> r.value == s
  {
    if s == "" then None else Some(s)
  }

  /**
   * The fields as both routes derive them: text fields stripped, the deadline
   * stripped and NULL when empty, the priority as posted (not stripped) or
   * "Medium" when the field is absent.
   */
  function ReadFields(form: ProjectForm): (f: Fields)
    ensures f.name == Strip(Posted(form.name))
    ensures f.description == Strip(Posted(form.description))
    ensures f.tags == Strip(Posted(form.tags))
    ensures f.manager == Strip(Posted(form.manager))
    ensures f.deadline.None? <==> Strip(Posted(form.deadline)) == ""
    ensures f.deadline.Some? ==> f.deadline.value == Strip(Posted(form.deadline))
    ensures form.priority.None? ==> f.priority == "Medium"
    ensures form.priority.Some? ==> f.priority == form.priority.value
  {
    Fields(
      Strip(Posted(form.name)),
      Strip(Posted(form.description)),
      Strip(Posted(form.tags)),
      Strip(Posted(form.manager)),
      OrNone(Strip(Posted(form.deadline))),
      form.priority.GetOr("Medium"))
  }

  /**
   * The create route's record: refused with a warning exactly when the
   * stripped name is blank; otherwise the form's fields, the stripped image
   * URL, the acting user as creator and the creation time.
   */
  function CreateProjectRecord(form: ProjectForm, actor: Id, now: Time): (r: Checked<NewProject>)
    ensures r.Rejected? <==> Strip(Posted(form.name)) == ""
    ensures r.Rejected? ==> r.outcome == Warning
    ensures r.Accepted? ==>
      && r.record.fields == ReadFields(form)
      && r.record.fields.name != ""
      && r.record.imageUrl == Strip(Posted(form.imageUrl))
      && r.record.createdBy == actor
      && r.record.createdAt == now
  {
    var fields := ReadFields(form);
    if fields.name == "" then Rejected(Warning)
    else Accepted(NewProject(fields, Strip(Posted(form.imageUrl)), actor, now))
  }

  /**
   * The edit route's changes: refused with a warning exactly when the stripped
   * name is blank; otherwise the form's fields and the update time.
   */
  function EditProjectRecord(form: ProjectForm, now: Time): (r: Checked<ProjectUpdate>)
    ensures r.Rejected? <==> Strip(Posted(form.name)) == ""
    ensures r.Rejected? ==> r.outcome == Warning
    ensures r.Accepted? ==> r.record.fields == ReadFields(form) && r.record.fields.name != "" && r.record.updatedAt == now
  {
    var fields := ReadFields(form);
    if fields.name == "" then Rejected(Warning)
    else Accepted(ProjectUpdate(fields, now))
  }

  /**
   * A name made only of whitespace is as blank as a missing one: both routes
   * refuse it.
   */
  lemma BlankNameRefused(form: ProjectForm, actor: Id, now: Time)
    requires forall i :: 0 <= i < |Posted(form.name)| ==> IsSpace(Posted(form.name)[i])
    ensures CreateProjectRecord(form, actor, now) == Rejected(Warning)
    ensures EditProjectRecord(form, now) == Rejected(Warning)
  {
    StripEmptyIff(Posted(form.name));
  }

  /**
   * Whatever the form, the stored name neither starts nor ends with
   * whitespace and resubmitting it as the name of an edit keeps it as it is.
   */
  lemma StoredNameStable(form: ProjectForm, actor: Id, now: Time, later: Time)
    requires CreateProjectRecord(form, actor, now).Accepted?
    ensures var name := CreateProjectRecord(form, actor, now).record.fields.name;
      EditProjectRecord(form.(name := Some(name)), later).Accepted? &&
      EditProjectRecord(form.(name := Some(name)), later).record.fields.name == name
  {
    StripIdempotent(Posted(form.name));
  }

  /**
   * Creating {name: "Launch", priority: "High"} as user 1 gives priority
   * "High", no deadline and creator 1.
   */
  lemma LaunchScenario(now: Time)
    ensures var r := CreateProjectRecord(ProjectForm(Some("Launch"), None, None, None, None, Some("High"), None), 1, now);
      && r.Accepted?
      && r.record.fields.name == "Launch"
      && r.record.fields.priority == "High"
      && r.record.fields.deadline == None
      && r.record.createdBy == 1
  {
    StripUntrimmed("Launch");
    StripUntrimmed("");
  }

  /** A posted but empty priority is kept empty: the default applies only when the field is absent. */
  lemma EmptyPriorityKept(now: Time)
    ensures var r := CreateProjectRecord(ProjectForm(Some("Launch"), None, None, None, None, Some(""), None), 1, now);
      r.Accepted? && r.record.fields.priority == ""
  {
    StripUntrimmed("Launch");
  }
}
