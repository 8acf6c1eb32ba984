/** The body of a create or update request and the bean-validation constraints on it. */
module TaskRequests {
  import opened Wrappers
  import opened Text
  import opened Tasks

  /** Every field may be null in the JSON body. */
  datatype TaskRequest = TaskRequest(
    title: Option<string>,
    description: Option<string>,
    status: Option<TaskStatus>,
    priority: Option<TaskPriority>,
    assigneeId: Option<int>
  )

  /** `@NotBlank`: not null, and something is left after `trim()`. */
  predicate NotBlank(s: Option<string>)
  {
    s.Some? && Trim(s.value) != []
  }

  /** `@Valid` on a TaskRequest: a non-blank title, a status and a priority. */
  predicate IsValidRequest(r: TaskRequest)
  {
    NotBlank(r.title) && r.status.Some? && r.priority.Some?
  }

  /**
   * A request is valid exactly when its title is present and holds a character above the space,
   * and status and priority are present.
   */
  lemma ValidRequestIff(r: TaskRequest)
    ensures IsValidRequest(r) <==>
      && r.title.Some?
      && (exists i :: 0 <= i < |r.title.value| && !IsTrimmed(r.title.value[i]))
      && r.status.Some?
      && r.priority.Some?
  {
    if r.title.Some? {
      TrimEmptyIffAllTrimmed(r.title.value);
    }
  }

  /** Description and assignee id play no part in validity. */
  lemma ValidityIgnoresOptionalFields(r: TaskRequest, description: Option<string>, assigneeId: Option<int>)
    ensures IsValidRequest(r.(description := description, assigneeId := assigneeId)) == IsValidRequest(r)
  {
  }

  /** A title of spaces only, or a missing title, is refused. */
  lemma BlankTitlesRefused(r: TaskRequest)
    requires r.title.None? || forall i :: 0 <= i < |r.title.value| ==> r.title.value[i] == ' '
    ensures !IsValidRequest(r)
  {
    if r.title.Some? {
      TrimEmptyIffAllTrimmed(r.title.value);
    }
  }
}
