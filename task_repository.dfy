/** The task table and the derived queries over it. */
module TaskStore {
  import opened Wrappers
  import opened Seqs
  import opened Users
  import opened Tasks

  /** The filter of `findByStatusAndAssignee`: a null parameter places no constraint. */
  predicate MatchesStatusAndAssignee(t: Task, status: Option<TaskStatus>, assignee: Option<User>)
  {
    (status.None? || t.status == status.value) && (assignee.None? || IsAssignee(t, assignee.value.id))
  }

  /** `findByStatusAndAssignee` over the table's rows (paging is not modelled). */
  function FindByStatusAndAssignee(rows: seq<Task>, status: Option<TaskStatus>, assignee: Option<User>): seq<Task>
  {
    Filter(rows, (t: Task) => MatchesStatusAndAssignee(t, status, assignee))
  }

  /** `findByAssignee`. */
  function FindByAssignee(rows: seq<Task>, assignee: User): seq<Task>
  {
    Filter(rows, (t: Task) => IsAssignee(t, assignee.id))
  }

  /** `findByCreator`. */
  function FindByCreator(rows: seq<Task>, creator: User): seq<Task>
  {
    Filter(rows, (t: Task) => IsCreator(t, creator.id))
  }

  /** `findByStatus`. */
  function FindByStatus(rows: seq<Task>, status: TaskStatus): seq<Task>
  {
    Filter(rows, (t: Task) => t.status == status)
  }

  /** `findByAssigneeAndStatus`. */
  function FindByAssigneeAndStatus(rows: seq<Task>, assignee: User, status: TaskStatus): seq<Task>
  {
    Filter(rows, (t: Task) => IsAssignee(t, assignee.id) && t.status == status)
  }

  /**
   * A row is returned exactly when it is stored and each non-null parameter matches it; JPQL
   * compares the assignee entity by primary key, and a null assignee column matches no user.
   */
  lemma FindByStatusAndAssigneeSpec(rows: seq<Task>, status: Option<TaskStatus>, assignee: Option<User>)
    ensures forall t :: t in FindByStatusAndAssignee(rows, status, assignee) <==>
      t in rows && (status.None? || t.status == status.value) && (assignee.None? || IsAssignee(t, assignee.value.id))
    ensures IdsIncrease(rows) ==> IdsIncrease(FindByStatusAndAssignee(rows, status, assignee))
  {
    if IdsIncrease(rows) {
      FilterKeepsIncreasing(rows, (t: Task) => MatchesStatusAndAssignee(t, status, assignee), (t: Task) => t.id);
    }
    forall t ensures t in FindByStatusAndAssignee(rows, status, assignee) <==> t in rows && MatchesStatusAndAssignee(t, status, assignee) {
      FilterMembership(rows, (t: Task) => MatchesStatusAndAssignee(t, status, assignee), t);
    }
  }

  /**
   * Null parameters mean "any": with both null every row comes back, unassigned rows
   * included; with one null the query is the single-criterion finder.
   */
  lemma NullMeansAny(rows: seq<Task>, status: TaskStatus, assignee: User)
    ensures FindByStatusAndAssignee(rows, None, None) == rows
    ensures FindByStatusAndAssignee(rows, Some(status), None) == FindByStatus(rows, status)
    ensures FindByStatusAndAssignee(rows, None, Some(assignee)) == FindByAssignee(rows, assignee)
  {
    FilterKeepsAll(rows, (t: Task) => MatchesStatusAndAssignee(t, None, None));
    FilterAgree(rows, (t: Task) => MatchesStatusAndAssignee(t, Some(status), None), (t: Task) => t.status == status);
    FilterAgree(rows, (t: Task) => MatchesStatusAndAssignee(t, None, Some(assignee)), (t: Task) => IsAssignee(t, assignee.id));
  }

  /** With both parameters given, the paged query and `findByAssigneeAndStatus` return the same rows. */
  lemma BothGivenIsAssigneeAndStatus(rows: seq<Task>, status: TaskStatus, assignee: User)
    ensures FindByStatusAndAssignee(rows, Some(status), Some(assignee)) == FindByAssigneeAndStatus(rows, assignee, status)
  {
    FilterAgree(rows, (t: Task) => MatchesStatusAndAssignee(t, Some(status), Some(assignee)),
      (t: Task) => IsAssignee(t, assignee.id) && t.status == status);
  }

  /** Tasks listed in increasing id order, so none twice. */
  predicate IdsIncrease(ts: seq<Task>)
  {
    forall i, j :: 0 <= i < j < |ts| ==> ts[i].id < ts[j].id
  }

  /** `findByAssignee` returns exactly the stored rows assigned to the user, in the scan's id order. */
  lemma FindByAssigneeSpec(rows: seq<Task>, assignee: User)
    ensures forall t :: t in FindByAssignee(rows, assignee) <==> t in rows && IsAssignee(t, assignee.id)
    ensures IdsIncrease(rows) ==> IdsIncrease(FindByAssignee(rows, assignee))
  {
    var p := (t: Task) => IsAssignee(t, assignee.id);
    forall t ensures t in FindByAssignee(rows, assignee) <==> t in rows && IsAssignee(t, assignee.id) {
      FilterMembership(rows, p, t);
    }
    if IdsIncrease(rows) {
      FilterKeepsIncreasing(rows, p, (t: Task) => t.id);
    }
  }

  /** `findByCreator` returns exactly the stored rows the user created, in the scan's id order. */
  lemma FindByCreatorSpec(rows: seq<Task>, creator: User)
    ensures forall t :: t in FindByCreator(rows, creator) <==> t in rows && IsCreator(t, creator.id)
    ensures IdsIncrease(rows) ==> IdsIncrease(FindByCreator(rows, creator))
  {
    var p := (t: Task) => IsCreator(t, creator.id);
    forall t ensures t in FindByCreator(rows, creator) <==> t in rows && IsCreator(t, creator.id) {
      FilterMembership(rows, p, t);
    }
    if IdsIncrease(rows) {
      FilterKeepsIncreasing(rows, p, (t: Task) => t.id);
    }
  }

  /** `findByStatus` returns exactly the stored rows with that status, in the scan's id order. */
  lemma FindByStatusSpec(rows: seq<Task>, status: TaskStatus)
    ensures forall t :: t in FindByStatus(rows, status) <==> t in rows && t.status == status
    ensures IdsIncrease(rows) ==> IdsIncrease(FindByStatus(rows, status))
  {
    var p := (t: Task) => t.status == status;
    forall t ensures t in FindByStatus(rows, status) <==> t in rows && t.status == status {
      FilterMembership(rows, p, t);
    }
    if IdsIncrease(rows) {
      FilterKeepsIncreasing(rows, p, (t: Task) => t.id);
    }
  }

  /** `findByAssigneeAndStatus` returns exactly the stored rows meeting both criteria, in the scan's id order. */
  lemma FindByAssigneeAndStatusSpec(rows: seq<Task>, assignee: User, status: TaskStatus)
    ensures forall t :: t in FindByAssigneeAndStatus(rows, assignee, status) <==>
      t in rows && IsAssignee(t, assignee.id) && t.status == status
    ensures IdsIncrease(rows) ==> IdsIncrease(FindByAssigneeAndStatus(rows, assignee, status))
  {
    var p := (t: Task) => IsAssignee(t, assignee.id) && t.status == status;
    forall t ensures t in FindByAssigneeAndStatus(rows, assignee, status) <==> t in rows && IsAssignee(t, assignee.id) && t.status == status {
      FilterMembership(rows, p, t);
    }
    if IdsIncrease(rows) {
      FilterKeepsIncreasing(rows, p, (t: Task) => t.id);
    }
  }

  /** Unassigned tasks never match an assignee query, whoever the user is. */
  lemma UnassignedNeverMatchAssignee(rows: seq<Task>, u: User, status: Option<TaskStatus>, t: Task)
    requires t.assignee.None?
    ensures t !in FindByAssignee(rows, u)
    ensures t !in FindByStatusAndAssignee(rows, status, Some(u))
  {
    FindByAssigneeSpec(rows, u);
    FindByStatusAndAssigneeSpec(rows, status, Some(u));
  }

  /** The task table, keyed by id; `save` of a new task assigns the next id. */
  class TaskRepository {
    var rows: map<int, Task>
    var nextId: int

    ghost predicate Valid()
      reads this
    {
      && nextId >= 1
      && forall id :: id in rows ==> 1 <= id < nextId && rows[id].id == id
    }

    constructor ()
      ensures Valid() && rows == map[] && nextId == 1
    {
      rows := map[];
      nextId := 1;
    }

    /** `findById`. */
    function FindById(id: int): Option<Task>
      reads this
    {
      if id in rows then Some(rows[id]) else None
    }

    /** `save` of a task without an id: it is stored under the next id. */
    method Insert(t: Task) returns (saved: Task)
      requires Valid()
      modifies this
      ensures Valid()
      ensures saved == t.(id := old(nextId))
      ensures rows == old(rows)[saved.id := saved] && nextId == old(nextId) + 1
    {
      saved := t.(id := nextId);
      rows := rows[nextId := saved];
      nextId := nextId + 1;
    }

    /** `save` of a task that is already stored: its row is replaced. */
    method Update(t: Task)
      requires Valid() && t.id in rows
      modifies this
      ensures Valid()
      ensures rows == old(rows)[t.id := t] && nextId == old(nextId)
    {
      rows := rows[t.id := t];
    }

    /** `delete`. */
    method Delete(id: int)
      requires Valid() && id in rows
      modifies this
      ensures Valid()
      ensures rows == old(rows) - {id} && nextId == old(nextId)
    {
      rows := rows - {id};
    }

    /**
     * The rows a query scans: every stored task exactly once, in id order (the order the
     * database returns is not modelled beyond that).
     */
    method FindAll() returns (all: seq<Task>)
      requires Valid()
      ensures forall t :: t in all <==> t.id in rows && rows[t.id] == t
      ensures IdsIncrease(all)
    {
      all := [];
      var id := 1;
      while id < nextId
        invariant 1 <= id <= nextId
        invariant forall t :: t in all <==> t.id in rows && rows[t.id] == t && t.id < id
        invariant forall i, j :: 0 <= i < j < |all| ==> all[i].id < all[j].id
      {
        if id in rows {
          all := all + [rows[id]];
        }
        id := id + 1;
      }
    }
  }
}
