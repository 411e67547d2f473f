/** TaskController: the /api/tasks endpoints over the tasks the entity
    manager holds, a map from id to the persisted field values. The caller is
    the authenticated user's id; a task belongs to the caller when its owner
    is that id. A missing id gives the 404 that the framework's not-found
    exception becomes. */
module TaskApi {
  import opened Php
  import opened ErrorResponses
  import opened TaskEntity

  /** The persisted tasks, by id. */
  type Tasks = map<int, TaskState>

  const PageSize := 10
  const DeletedMessage := "Task deleted successfully"

  /** A task as it is serialized: every field but the owner, which is
      ignored by the serializer. */
  datatype TaskView = TaskView(
    id: Option<int>,
    title: Option<string>,
    description: Option<string>,
    isDone: Option<bool>,
    createdAt: Option<Time>,
    updatedAt: Option<Time>)

  function View(t: TaskState): TaskView
  {
    TaskView(t.id, t.title, t.description, t.isDone, t.createdAt, t.updatedAt)
  }

  datatype TaskResponse =
    | Failure(error: ErrorResponse)       // an ErrorResponse envelope
    | NotFound                            // the task id matches no task: 404
    | ServerError                         // an uncaught TypeError: 500
    | TaskJson(status: int, task: TaskView)
    | Deleted(message: string)

  /** The response of a call and the store after it. */
  datatype Outcome = Outcome(response: TaskResponse, tasks: Tasks, nextId: int)

  /** What holds of every persisted task: its key is its id, it has an owner
      and its timestamps, it satisfies its constraints, and its id is below
      the next id to be generated. */
  predicate StoreInvariant(tasks: Tasks, nextId: int)
  {
    && IdsAreKeys(tasks)
    && forall k :: k in tasks ==>
      && tasks[k].owner.Some?
      && tasks[k].createdAt.Some? && tasks[k].updatedAt.Some?
      && Valid(tasks[k])
      && k < nextId
  }

  /** Every task is stored under its own id. */
  predicate IdsAreKeys(tasks: Tasks)
  {
    forall k :: k in tasks ==> tasks[k].id == Some(k)
  }

  // ---------------------------------------------------------------------
  // list

  datatype Pagination = Pagination(
    currentPage: int,
    totalPages: int,
    totalItems: int,
    itemsPerPage: int,
    hasNextPage: bool,
    hasPreviousPage: bool,
    nextPage: Option<int>,
    previousPage: Option<int>)

  datatype Listing = Listing(tasks: seq<TaskView>, pagination: Pagination)

  /** `max(1, (int) $request->query->get('page', 1))` */
  function EffectivePage(pageParam: Option<string>): (page: int)
    ensures page >= 1
  {
    var requested := if pageParam.None? then 1 else IntOfString(pageParam.value);
    if requested > 1 then requested else 1
  }

  /** A page number written in decimal is that page; zero, negative or
      unreadable ones are clamped to the first page. */
  lemma EffectivePageOfDecimal(p: int)
    ensures EffectivePage(Some(DecimalString(p))) == if p >= 1 then p else 1
    ensures EffectivePage(None) == 1
  {
    IntOfDecimalString(p);
  }

  /** `ceil($a / $b)` for a natural a and a positive b. */
  function CeilDiv(a: nat, b: nat): nat
    requires b > 0
  {
    (a + b - 1) / b
  }

  /** The ids of the caller's tasks. */
  function OwnedIds(tasks: Tasks, user: UserId): set<int>
  {
    set k | k in tasks && tasks[k].owner == Some(user)
  }

  predicate StrictlyDecreasing(s: seq<int>)
  {
    forall i, j :: 0 <= i < j < |s| ==> s[i] > s[j]
  }

  lemma EmptyOrHasElement(s: set<int>)
    ensures s == {} || exists x :: x in s
  {
    if forall x :: x !in s {
      assert s == {};
    }
  }

  lemma HasMaximum(s: set<int>)
    requires s != {}
    ensures exists m :: m in s && forall x :: x in s ==> x <= m
    decreases |s|
  {
    EmptyOrHasElement(s);
    var x :| x in s;
    var rest := s - {x};
    if rest == {} {
      assert s == {x};
    } else {
      HasMaximum(rest);
      var m :| m in rest && forall y :: y in rest ==> y <= m;
      var top := if x > m then x else m;
      assert forall y :: y in s ==> y <= top by {
        forall y | y in s ensures y <= top {
          if y != x {
            assert y in rest;
          }
        }
      }
    }
  }

  function Maximum(s: set<int>): (m: int)
    requires s != {}
    ensures m in s && forall x :: x in s ==> x <= m
  {
    HasMaximum(s);
    var m :| m in s && forall x :: x in s ==> x <= m;
    m
  }

  /** The ids in descending order (`['id' => 'DESC']`). */
  function Descending(s: set<int>): (r: seq<int>)
    ensures |r| == |s| && StrictlyDecreasing(r)
    ensures forall x :: x in r <==> x in s
    decreases |s|
  {
    if s == {} then []
    else
      var m := Maximum(s);
      var rest := Descending(s - {m});
      assert forall i :: 0 <= i < |rest| ==> rest[i] in s - {m};
      [m] + rest
  }

  /** The slice findBy returns for a limit of PageSize at the page's offset. */
  function PageSlice(ids: seq<int>, page: int): seq<int>
    requires page >= 1
  {
    var offset := (page - 1) * PageSize;
    var lo := if offset < |ids| then offset else |ids|;
    var hi := if offset + PageSize < |ids| then offset + PageSize else |ids|;
    ids[lo..hi]
  }

  lemma PageSliceContents(ids: seq<int>, page: int)
    requires page >= 1
    ensures var offset := (page - 1) * PageSize; var r := PageSlice(ids, page);
      && |r| == (if offset + PageSize <= |ids| then PageSize else if offset < |ids| then |ids| - offset else 0)
      && forall i :: 0 <= i < |r| ==> offset + i < |ids| && r[i] == ids[offset + i]
  {
  }

  function Views(tasks: Tasks, ids: seq<int>): (r: seq<TaskView>)
    requires forall i :: 0 <= i < |ids| ==> ids[i] in tasks
    ensures |r| == |ids|
    ensures forall i :: 0 <= i < |ids| ==> r[i] == View(tasks[ids[i]])
  {
    if ids == [] then [] else [View(tasks[ids[0]])] + Views(tasks, ids[1..])
  }

  /** The response of list for the owned ids in order and the page asked
      for. */
  function ListPage(tasks: Tasks, owned: seq<int>, page: int): Listing
    requires page >= 1 && forall i :: 0 <= i < |owned| ==> owned[i] in tasks
  {
    var total := |owned|;
    var totalPages := CeilDiv(total, PageSize);
    var hasNext := page < totalPages;
    var hasPrevious := page > 1;
    var slice := PageSlice(owned, page);
    PageSliceContents(owned, page);
    Listing(
      Views(tasks, slice),
      Pagination(page, totalPages, total, PageSize, hasNext, hasPrevious,
                 if hasNext then Some(page + 1) else None,
                 if hasPrevious then Some(page - 1) else None))
  }

  /** The caller's ids, newest first. */
  function OwnedDescending(tasks: Tasks, user: UserId): (r: seq<int>)
    ensures |r| == |OwnedIds(tasks, user)| && StrictlyDecreasing(r)
    ensures forall i :: 0 <= i < |r| ==> r[i] in tasks && tasks[r[i]].owner == Some(user)
  {
    var r := Descending(OwnedIds(tasks, user));
    assert forall i :: 0 <= i < |r| ==> r[i] in r;
    r
  }

  /** Every task of the caller has a place in that order. */
  lemma OwnedDescendingComplete(tasks: Tasks, user: UserId, k: int)
    requires k in tasks && tasks[k].owner == Some(user)
    ensures k in OwnedDescending(tasks, user)
  {
    assert k in OwnedIds(tasks, user);
  }

  /** list: the caller's tasks, newest id first, ten to a page, with the
      pagination block. */
  function List(tasks: Tasks, user: UserId, pageParam: Option<string>): Listing
  {
    ListPage(tasks, OwnedDescending(tasks, user), EffectivePage(pageParam))
  }

  /** There is a next page exactly when some owned task lies beyond this
      page, and a previous page exactly when this is not the first one; the
      page numbers offered are the neighbours, and null otherwise. */
  lemma PaginationLaws(tasks: Tasks, user: UserId, pageParam: Option<string>)
    ensures var l := List(tasks, user, pageParam); var p := l.pagination;
      && p.currentPage >= 1
      && p.totalItems == |OwnedIds(tasks, user)|
      && p.itemsPerPage == PageSize
      && p.totalPages * PageSize >= p.totalItems
      && (p.totalItems > 0 ==> (p.totalPages - 1) * PageSize < p.totalItems)
      && (p.totalItems == 0 ==> p.totalPages == 0)
      && (p.hasNextPage <==> p.currentPage * PageSize < p.totalItems)
      && (p.hasPreviousPage <==> p.currentPage > 1)
      && (p.nextPage.Some? <==> p.hasNextPage)
      && (p.nextPage.Some? ==> p.nextPage.value == p.currentPage + 1)
      && (p.previousPage.Some? <==> p.hasPreviousPage)
      && (p.previousPage.Some? ==> p.previousPage.value == p.currentPage - 1)
  {
    var l := List(tasks, user, pageParam);
    var page, total := l.pagination.currentPage, l.pagination.totalItems;
    var q := CeilDiv(total, PageSize);
    assert q * PageSize <= total + PageSize - 1 < q * PageSize + PageSize;
    if page < q {
      assert page * PageSize + PageSize <= q * PageSize;
    }
    if page * PageSize < total {
      assert page * PageSize + PageSize <= total + PageSize - 1;
    }
  }

  /** A page of an id sequence holds at most PageSize views, exactly those
      of the ids whose position falls within the page. */
  lemma PageContents(tasks: Tasks, owned: seq<int>, page: int)
    requires page >= 1 && forall i :: 0 <= i < |owned| ==> owned[i] in tasks
    ensures var l := ListPage(tasks, owned, page); var offset := (page - 1) * PageSize;
      && |l.tasks| <= PageSize
      && |l.tasks| == (if offset + PageSize <= |owned| then PageSize
                       else if offset < |owned| then |owned| - offset
                       else 0)
      && forall i :: 0 <= i < |l.tasks| ==>
           offset + i < |owned| && l.tasks[i] == View(tasks[owned[offset + i]])
  {
    PageSliceContents(owned, page);
  }

  /** A page of list holds at most PageSize tasks, exactly those owned tasks
      whose position in the descending id order falls within the page asked
      for. */
  lemma ListedTasks(tasks: Tasks, user: UserId, pageParam: Option<string>)
    ensures var views := List(tasks, user, pageParam).tasks;
      var owned := OwnedDescending(tasks, user);
      var offset := (EffectivePage(pageParam) - 1) * PageSize;
      && |views| <= PageSize
      && |views| == (if offset + PageSize <= |owned| then PageSize
                     else if offset < |owned| then |owned| - offset
                     else 0)
      && forall i :: 0 <= i < |views| ==>
           offset + i < |owned| && views[i] == View(tasks[owned[offset + i]])
  {
    PageContents(tasks, OwnedDescending(tasks, user), EffectivePage(pageParam));
  }

  /** A page of ids that belong to the caller, in strictly decreasing order,
      shows only the caller's tasks, in that order, when every task is stored
      under its own id. */
  lemma PageOwnedAndOrdered(tasks: Tasks, user: UserId, owned: seq<int>, page: int)
    requires page >= 1 && IdsAreKeys(tasks) && StrictlyDecreasing(owned)
    requires forall i :: 0 <= i < |owned| ==> owned[i] in tasks && tasks[owned[i]].owner == Some(user)
    ensures var views := ListPage(tasks, owned, page).tasks;
      && (forall i :: 0 <= i < |views| ==>
            views[i].id.Some? && views[i].id.value in tasks && tasks[views[i].id.value].owner == Some(user))
      && (forall i, j :: 0 <= i < j < |views| ==> views[i].id.value > views[j].id.value)
  {
    var offset := (page - 1) * PageSize;
    var views := ListPage(tasks, owned, page).tasks;
    PageContents(tasks, owned, page);
    forall i | 0 <= i < |views|
      ensures views[i].id == Some(owned[offset + i]) && owned[offset + i] in tasks
    {
      assert views[i] == View(tasks[owned[offset + i]]);
    }
    forall i, j | 0 <= i < j < |views|
      ensures views[i].id.value > views[j].id.value
    {
      assert owned[offset + i] > owned[offset + j];
    }
  }

  /** When every task is stored under its own id (as the store invariant
      has it), a page of list shows only the caller's tasks, each id at most
      once, in strictly decreasing id order. */
  lemma ListedTasksAreOwnedAndOrdered(tasks: Tasks, user: UserId, pageParam: Option<string>)
    requires IdsAreKeys(tasks)
    ensures var l := List(tasks, user, pageParam);
      && (forall i :: 0 <= i < |l.tasks| ==>
            l.tasks[i].id.Some? && l.tasks[i].id.value in tasks &&
            tasks[l.tasks[i].id.value].owner == Some(user))
      && (forall i, j :: 0 <= i < j < |l.tasks| ==> l.tasks[i].id.value > l.tasks[j].id.value)
  {
    PageOwnedAndOrdered(tasks, user, OwnedDescending(tasks, user), EffectivePage(pageParam));
  }

  /** The id at a position of the order is shown on the page that position
      falls on. */
  lemma PositionIsListed(tasks: Tasks, owned: seq<int>, i: int) returns (p: int)
    requires 0 <= i < |owned| && forall j :: 0 <= j < |owned| ==> owned[j] in tasks
    ensures p >= 1 && View(tasks[owned[i]]) in ListPage(tasks, owned, p).tasks
  {
    p := PageOf(i);
    var views := ListPage(tasks, owned, p).tasks;
    PageContents(tasks, owned, p);
    assert views[i - (p - 1) * PageSize] == View(tasks[owned[i]]);
  }

  /** Every task of the caller appears on some page: the one its position in
      the descending order falls in, asked for by its decimal number. */
  lemma EveryOwnedTaskIsListed(tasks: Tasks, user: UserId, k: int)
    requires k in OwnedIds(tasks, user)
    ensures exists p :: p >= 1 && View(tasks[k]) in List(tasks, user, Some(DecimalString(p))).tasks
  {
    var owned := OwnedDescending(tasks, user);
    OwnedDescendingComplete(tasks, user, k);
    var i :| 0 <= i < |owned| && owned[i] == k;
    var p := PositionIsListed(tasks, owned, i);
    EffectivePageOfDecimal(p);
    assert List(tasks, user, Some(DecimalString(p))).tasks == ListPage(tasks, owned, p).tasks;
  }

  /** The page a position in the order falls on. */
  lemma PageOf(i: nat) returns (p: int)
    ensures p >= 1 && (p - 1) * PageSize <= i < p * PageSize
  {
    p := i / PageSize + 1;
  }

  /** Fifteen tasks: the first page holds ten and points to a second page,
      which holds the remaining five and points back to the first. */
  lemma FifteenTasks(tasks: Tasks, user: UserId)
    requires |OwnedIds(tasks, user)| == 15
    ensures var l := List(tasks, user, Some("1"));
      |l.tasks| == 10 && l.pagination.totalPages == 2 &&
      l.pagination.hasNextPage && !l.pagination.hasPreviousPage && l.pagination.nextPage == Some(2)
    ensures var l := List(tasks, user, Some("2"));
      |l.tasks| == 5 && l.pagination.currentPage == 2 &&
      !l.pagination.hasNextPage && l.pagination.hasPreviousPage && l.pagination.previousPage == Some(1)
  {
    EffectivePageOfDecimal(1);
    EffectivePageOfDecimal(2);
    assert DecimalString(1) == "1" && DecimalString(2) == "2";
    ListedTasks(tasks, user, Some("1"));
    ListedTasks(tasks, user, Some("2"));
  }

  // ---------------------------------------------------------------------
  // show

  /** show: the task, to its owner only. */
  function Show(tasks: Tasks, user: UserId, id: int): TaskResponse
  {
    if id !in tasks then NotFound
    else if tasks[id].owner != Some(user) then Failure(AccessDenied())
    else TaskJson(HttpOk, View(tasks[id]))
  }

  // ---------------------------------------------------------------------
  // create, update, delete as functions of the store

  /** A nullable string field as the value a getter hands to `??`. */
  function OptStr(o: Option<string>): Value
  {
    if o.None? then Null else Str(o.value)
  }

  function OptBool(o: Option<bool>): Value
  {
    if o.None? then Null else Bool(o.value)
  }

  /** The payload's title, description and isDone passed to their setters,
      a key that is absent or null giving way to its default (`??`); None
      when a value cannot be passed (a TypeError, answered 500). The other
      fields are left as they are. */
  function Coerced(task: TaskState, data: PhpArray, titleDefault: Value, descriptionDefault: Value, isDoneDefault: Value)
    : (r: Option<TaskState>)
    ensures r.Some? ==> r.value.title.Some? && r.value.isDone.Some?
    ensures r.Some? ==> r.value.(title := task.title, description := task.description, isDone := task.isDone) == task
  {
    var title := StringParam(Coalesce(data, "title", titleDefault));
    var description := NullableStringParam(Coalesce(data, "description", descriptionDefault));
    var isDone := BoolParam(Coalesce(data, "isDone", isDoneDefault));
    if title.TypeError? || description.TypeError? || isDone.TypeError? then None
    else Some(task.(title := Some(title.value), description := description.value, isDone := Some(isDone.value)))
  }

  /** The payload applied over a task's own values, as update does. */
  function Edited(current: TaskState, data: PhpArray): Option<TaskState>
  {
    Coerced(current, data, OptStr(current.title), OptStr(current.description), OptBool(current.isDone))
  }

  /** create: the payload's fields with defaults, owned by the caller;
      validated, then persisted with the PrePersist timestamps and the next
      generated id. */
  function CreateSpec(tasks: Tasks, nextId: int, user: UserId, body: RequestBody, now: Time): Outcome
  {
    if body.Malformed? then Outcome(Failure(InvalidJson()), tasks, nextId)
    else
      match Coerced(NewTask().(owner := Some(user)), body.data, Str(""), Null, Bool(false))
      case None => Outcome(ServerError, tasks, nextId)
      case Some(task) =>
        if Violations(task) != [] then Outcome(Failure(ValidationError(Violations(task))), tasks, nextId)
        else
          var persisted := task.(createdAt := Some(now), updatedAt := Some(now), id := Some(nextId));
          Outcome(TaskJson(HttpCreated, View(persisted)), tasks[nextId := persisted], nextId + 1)
  }

  /** update: a key that is absent or null keeps the field's value; then
      validation; on flush, the PreUpdate hook stamps updatedAt only when a
      field changed, as Doctrine fires it only for a non-empty change set. */
  function UpdateSpec(tasks: Tasks, nextId: int, user: UserId, id: int, body: RequestBody, now: Time): Outcome
  {
    if id !in tasks then Outcome(NotFound, tasks, nextId)
    else if tasks[id].owner != Some(user) then Outcome(Failure(AccessDenied()), tasks, nextId)
    else if body.Malformed? then Outcome(Failure(InvalidJson()), tasks, nextId)
    else
      match Edited(tasks[id], body.data)
      case None => Outcome(ServerError, tasks, nextId)
      case Some(edited) =>
        if Violations(edited) != [] then Outcome(Failure(ValidationError(Violations(edited))), tasks, nextId)
        else
          var flushed := if edited != tasks[id] then edited.(updatedAt := Some(now)) else edited;
          Outcome(TaskJson(HttpOk, View(flushed)), tasks[id := flushed], nextId)
  }

  /** delete: the owner's task is removed. */
  function DeleteSpec(tasks: Tasks, nextId: int, user: UserId, id: int): Outcome
  {
    if id !in tasks then Outcome(NotFound, tasks, nextId)
    else if tasks[id].owner != Some(user) then Outcome(Failure(AccessDenied()), tasks, nextId)
    else Outcome(Deleted(DeletedMessage), tasks - {id}, nextId)
  }

  // ---------------------------------------------------------------------
  // The controller over a mutable store

  class TaskController {
    /** The rows the entity manager holds. */
    var tasks: Tasks
    /** The id the database generates next. */
    var nextId: int

    constructor ()
      ensures tasks == map[] && nextId == 1
      ensures StoreInvariant(tasks, nextId)
    {
      tasks := map[];
      nextId := 1;
    }

    method Create(user: UserId, body: RequestBody, now: Time) returns (response: TaskResponse)
      modifies this
      ensures CreateSpec(old(tasks), old(nextId), user, body, now) == Outcome(response, tasks, nextId)
    {
      if body.Malformed? {
        return Failure(InvalidJson());
      }
      var data := body.data;
      var task := new Task();
      var title := StringParam(Coalesce(data, "title", Str("")));
      if title.TypeError? {
        return ServerError;
      }
      var r := task.SetTitle(title.value);
      var description := NullableStringParam(Coalesce(data, "description", Null));
      if description.TypeError? {
        return ServerError;
      }
      r := task.SetDescription(description.value);
      var isDone := BoolParam(Coalesce(data, "isDone", Bool(false)));
      if isDone.TypeError? {
        return ServerError;
      }
      r := task.SetIsDone(isDone.value);
      r := task.SetOwner(Some(user));
      var errors := Violations(task.State());
      if |errors| > 0 {
        return Failure(ValidationError(errors));
      }
      Persist(task, now);
      response := TaskJson(HttpCreated, View(task.State()));
    }

    /** persist and flush of a new task: the PrePersist hook stamps both
        timestamps, and the row receives the next generated id. */
    method Persist(task: Task, now: Time)
      modifies this, task
      ensures task.State() == old(task.State()).(createdAt := Some(now), updatedAt := Some(now), id := Some(old(nextId)))
      ensures tasks == old(tasks)[old(nextId) := task.State()] && nextId == old(nextId) + 1
    {
      task.SetCreatedAtValue(now);
      task.id := Some(nextId);
      tasks := tasks[nextId := task.State()];
      nextId := nextId + 1;
    }

    method Update(user: UserId, id: int, body: RequestBody, now: Time) returns (response: TaskResponse)
      modifies this
      ensures UpdateSpec(old(tasks), old(nextId), user, id, body, now) == Outcome(response, tasks, nextId)
    {
      if id !in tasks {
        return NotFound;
      }
      var task := new Task.FromRow(tasks[id]);
      if task.GetOwner() != Some(user) {
        return Failure(AccessDenied());
      }
      if body.Malformed? {
        return Failure(InvalidJson());
      }
      var data := body.data;
      var title := StringParam(Coalesce(data, "title", OptStr(task.GetTitle())));
      if title.TypeError? {
        return ServerError;
      }
      var r := task.SetTitle(title.value);
      var description := NullableStringParam(Coalesce(data, "description", OptStr(task.GetDescription())));
      if description.TypeError? {
        return ServerError;
      }
      r := task.SetDescription(description.value);
      var isDone := BoolParam(Coalesce(data, "isDone", OptBool(task.GetIsDone())));
      if isDone.TypeError? {
        return ServerError;
      }
      r := task.SetIsDone(isDone.value);
      var errors := Violations(task.State());
      if |errors| > 0 {
        return Failure(ValidationError(errors));
      }
      // flush: the PreUpdate hook runs only for a non-empty change set
      if task.State() != tasks[id] {
        task.SetUpdatedAtValue(now);
      }
      tasks := tasks[id := task.State()];
      response := TaskJson(HttpOk, View(task.State()));
    }

    method Delete(user: UserId, id: int) returns (response: TaskResponse)
      modifies this
      ensures DeleteSpec(old(tasks), old(nextId), user, id) == Outcome(response, tasks, nextId)
    {
      if id !in tasks {
        return NotFound;
      }
      if tasks[id].owner != Some(user) {
        return Failure(AccessDenied());
      }
      tasks := tasks - {id};
      response := Deleted(DeletedMessage);
    }
  }

  // ---------------------------------------------------------------------
  // Properties of the operations

  /** Someone else's task is refused with 403 by show, update and delete,
      whatever the body (update checks the owner before reading it), and the
      store is left as it was. */
  lemma NonOwnerIsDenied(tasks: Tasks, nextId: int, user: UserId, id: int, body: RequestBody, now: Time)
    requires id in tasks && tasks[id].owner != Some(user)
    ensures Show(tasks, user, id) == Failure(AccessDenied())
    ensures UpdateSpec(tasks, nextId, user, id, body, now) == Outcome(Failure(AccessDenied()), tasks, nextId)
    ensures DeleteSpec(tasks, nextId, user, id) == Outcome(Failure(AccessDenied()), tasks, nextId)
    ensures AccessDenied().status == HttpForbidden && AccessDenied().body.error == "ACCESS_DENIED"
  {
  }

  /** An unknown id is a 404 for show, update and delete. */
  lemma UnknownIdIsNotFound(tasks: Tasks, nextId: int, user: UserId, id: int, body: RequestBody, now: Time)
    requires id !in tasks
    ensures Show(tasks, user, id) == NotFound
    ensures UpdateSpec(tasks, nextId, user, id, body, now) == Outcome(NotFound, tasks, nextId)
    ensures DeleteSpec(tasks, nextId, user, id) == Outcome(NotFound, tasks, nextId)
  {
  }

  /** A create that does not succeed leaves the store and the id sequence
      untouched, so nothing invalid is ever persisted. */
  lemma CreateFailureChangesNothing(tasks: Tasks, nextId: int, user: UserId, body: RequestBody, now: Time)
    ensures var o := CreateSpec(tasks, nextId, user, body, now);
      !o.response.TaskJson? ==> o.tasks == tasks && o.nextId == nextId
  {
  }

  /** An update that does not succeed leaves the store untouched. */
  lemma UpdateFailureChangesNothing(tasks: Tasks, nextId: int, user: UserId, id: int, body: RequestBody, now: Time)
    ensures var o := UpdateSpec(tasks, nextId, user, id, body, now);
      !o.response.TaskJson? ==> o.tasks == tasks && o.nextId == nextId
  {
  }

  /** Successful create: 201, and the store gains exactly one task, under a
      fresh id, owned by the caller, valid, and stamped with the clock
      reading on both timestamps. */
  lemma CreateAddsOneOwnedTask(tasks: Tasks, nextId: int, user: UserId, body: RequestBody, now: Time)
    requires StoreInvariant(tasks, nextId)
    ensures var o := CreateSpec(tasks, nextId, user, body, now);
      o.response.TaskJson? ==>
        && o.response.status == HttpCreated
        && nextId !in tasks
        && o.tasks.Keys == tasks.Keys + {nextId}
        && (forall k :: k in tasks ==> o.tasks[k] == tasks[k])
        && o.tasks[nextId].owner == Some(user)
        && o.tasks[nextId].id == Some(nextId)
        && o.tasks[nextId].createdAt == Some(now) && o.tasks[nextId].updatedAt == Some(now)
        && Valid(o.tasks[nextId])
        && o.response.task == View(o.tasks[nextId])
  {
    var o := CreateSpec(tasks, nextId, user, body, now);
    if o.response.TaskJson? {
      ViolationsMatchConstraints(o.tasks[nextId]);
    }
  }

  /** A payload with only a valid title creates a task with a null
      description, not done, owned by the caller. */
  lemma CreateWithDefaults(tasks: Tasks, nextId: int, user: UserId, data: PhpArray, title: string, now: Time)
    requires Lookup(data, "title") == Some(Str(title)) && 1 <= |title| <= TitleMaxLength
    requires Lookup(data, "description").None? && Lookup(data, "isDone").None?
    ensures var task := TaskState(Some(nextId), Some(title), None, Some(false), Some(now), Some(now), Some(user));
      CreateSpec(tasks, nextId, user, Decoded(data), now) ==
        Outcome(TaskJson(HttpCreated, View(task)), tasks[nextId := task], nextId + 1)
  {
    var task := NewTask().(title := Some(title), owner := Some(user));
    assert Coerced(NewTask().(owner := Some(user)), data, Str(""), Null, Bool(false)) == Some(task);
    assert Violations(task) == [] by {
      ViolationsMatchConstraints(task);
    }
  }

  /** Without a title (absent, null or ""), create answers 422 with the two
      title violations and persists nothing, whenever the other two fields
      can be passed and the description is not too long. */
  lemma CreateWithoutTitleFails(tasks: Tasks, nextId: int, user: UserId, data: PhpArray, now: Time)
    requires Coalesce(data, "title", Str("")) == Str("")
    requires !Coalesce(data, "description", Null).Arr?
    requires |StringCast(Coalesce(data, "description", Null))| <= DescriptionMaxLength
    requires !Coalesce(data, "isDone", Bool(false)).Arr?
    ensures CreateSpec(tasks, nextId, user, Decoded(data), now) ==
      Outcome(Failure(ValidationError([ConstraintViolation("title", TitleRequired),
                                       ConstraintViolation("title", TitleTooShort)])), tasks, nextId)
  {
    var task := Coerced(NewTask().(owner := Some(user)), data, Str(""), Null, Bool(false)).value;
    assert task.title == Some("");
    assert DescriptionViolations(task.description) == [];
    assert Violations(task) == [ConstraintViolation("title", TitleRequired), ConstraintViolation("title", TitleTooShort)];
  }

  /** create stores what the payload holds: the string cast of the title
      (default ""), the string cast of the description or null (default
      null), and the boolean cast of isDone (default false). It answers 500
      exactly when one of them is an array, which no parameter accepts. */
  lemma CreateStoresPayload(tasks: Tasks, nextId: int, user: UserId, data: PhpArray, now: Time)
    ensures var o := CreateSpec(tasks, nextId, user, Decoded(data), now);
      var title := Coalesce(data, "title", Str(""));
      var description := Coalesce(data, "description", Null);
      var isDone := Coalesce(data, "isDone", Bool(false));
      && (o.response == ServerError <==> title.Arr? || description.Arr? || isDone.Arr?)
      && (o.response.TaskJson? ==>
            && o.tasks[nextId].title == Some(StringCast(title))
            && o.tasks[nextId].description == (if description.Null? then None else Some(StringCast(description)))
            && o.tasks[nextId].isDone == Some(BoolCast(isDone)))
  {
  }

  /** create keeps the store invariant. */
  lemma CreatePreservesInvariant(tasks: Tasks, nextId: int, user: UserId, body: RequestBody, now: Time)
    requires StoreInvariant(tasks, nextId)
    ensures var o := CreateSpec(tasks, nextId, user, body, now); StoreInvariant(o.tasks, o.nextId)
  {
    var o := CreateSpec(tasks, nextId, user, body, now);
    if o.response.TaskJson? {
      CreateAddsOneOwnedTask(tasks, nextId, user, body, now);
    } else {
      CreateFailureChangesNothing(tasks, nextId, user, body, now);
    }
  }

  /** update keeps the store invariant. */
  lemma UpdatePreservesInvariant(tasks: Tasks, nextId: int, user: UserId, id: int, body: RequestBody, now: Time)
    requires StoreInvariant(tasks, nextId)
    ensures var o := UpdateSpec(tasks, nextId, user, id, body, now); StoreInvariant(o.tasks, o.nextId)
  {
    var o := UpdateSpec(tasks, nextId, user, id, body, now);
    if o.response.TaskJson? {
      UpdateKeepsOtherFields(tasks, nextId, user, id, body, now);
      forall k | k in o.tasks
        ensures o.tasks[k].id == Some(k) && o.tasks[k].owner.Some? && o.tasks[k].createdAt.Some?
        ensures o.tasks[k].updatedAt.Some? && Valid(o.tasks[k]) && k < o.nextId
      {
        assert k in tasks;
      }
    } else {
      UpdateFailureChangesNothing(tasks, nextId, user, id, body, now);
    }
  }

  /** delete keeps the store invariant. */
  lemma DeletePreservesInvariant(tasks: Tasks, nextId: int, user: UserId, id: int)
    requires StoreInvariant(tasks, nextId)
    ensures var o := DeleteSpec(tasks, nextId, user, id); StoreInvariant(o.tasks, o.nextId)
  {
  }

  /** A successful update rewrites only the task it names, keeps its id,
      owner and createdAt, leaves it valid, and stamps updatedAt with the
      clock reading exactly when title, description or isDone changed. */
  lemma UpdateKeepsOtherFields(tasks: Tasks, nextId: int, user: UserId, id: int, body: RequestBody, now: Time)
    ensures var o := UpdateSpec(tasks, nextId, user, id, body, now);
      o.response.TaskJson? ==>
        && id in tasks && o.response.status == HttpOk
        && o.tasks.Keys == tasks.Keys
        && (forall k :: k in tasks && k != id ==> o.tasks[k] == tasks[k])
        && o.tasks[id].id == tasks[id].id
        && o.tasks[id].owner == tasks[id].owner
        && o.tasks[id].createdAt == tasks[id].createdAt
        && Valid(o.tasks[id])
        && o.tasks[id].updatedAt ==
             (if o.tasks[id].(updatedAt := tasks[id].updatedAt) != tasks[id] then Some(now) else tasks[id].updatedAt)
        && o.response.task == View(o.tasks[id])
  {
    var o := UpdateSpec(tasks, nextId, user, id, body, now);
    if o.response.TaskJson? {
      ViolationsMatchConstraints(o.tasks[id].(updatedAt := tasks[id].updatedAt));
    }
  }

  /** The payload over a task's own values keeps every field whose key is
      absent or null (so a null description cannot clear one), and stores a
      string given for title or description, or a bool given for isDone, as
      it is. */
  lemma EditedFields(current: TaskState, data: PhpArray)
    requires Edited(current, data).Some?
    ensures var e := Edited(current, data).value;
      && (Coalesce(data, "title", Null).Null? ==> e.title == current.title)
      && (Coalesce(data, "description", Null).Null? ==> e.description == current.description)
      && (Coalesce(data, "isDone", Null).Null? ==> e.isDone == current.isDone)
      && (forall s :: Lookup(data, "title") == Some(Str(s)) ==> e.title == Some(s))
      && (forall s :: Lookup(data, "description") == Some(Str(s)) ==> e.description == Some(s))
      && (forall b :: Lookup(data, "isDone") == Some(Bool(b)) ==> e.isDone == Some(b))
  {
  }

  /** Applying the same payload to its own result gives that result again,
      whatever the task's updatedAt. */
  lemma EditedIsStable(current: TaskState, data: PhpArray, stamp: Option<Time>)
    requires Edited(current, data).Some?
    ensures var f := Edited(current, data).value.(updatedAt := stamp);
      Edited(f, data) == Some(f)
  {
  }

  /** A successful update keeps every field whose key is absent or null in
      the payload, and a string given for title or description is stored as
      it is. */
  lemma PartialUpdate(tasks: Tasks, nextId: int, user: UserId, id: int, data: PhpArray, now: Time)
    ensures var o := UpdateSpec(tasks, nextId, user, id, Decoded(data), now);
      o.response.TaskJson? ==>
        && (Coalesce(data, "title", Null).Null? ==> o.tasks[id].title == tasks[id].title)
        && (Coalesce(data, "description", Null).Null? ==> o.tasks[id].description == tasks[id].description)
        && (Coalesce(data, "isDone", Null).Null? ==> o.tasks[id].isDone == tasks[id].isDone)
        && (forall s :: Lookup(data, "title") == Some(Str(s)) ==> o.tasks[id].title == Some(s))
        && (forall s :: Lookup(data, "description") == Some(Str(s)) ==> o.tasks[id].description == Some(s))
        && (forall b :: Lookup(data, "isDone") == Some(Bool(b)) ==> o.tasks[id].isDone == Some(b))
  {
    var o := UpdateSpec(tasks, nextId, user, id, Decoded(data), now);
    if o.response.TaskJson? {
      EditedFields(tasks[id], data);
    }
  }

  /** Sending the same update again changes nothing more: the second call
      succeeds, stores the same task and does not stamp it again. */
  lemma UpdateIsIdempotent(tasks: Tasks, nextId: int, user: UserId, id: int, body: RequestBody, now: Time, later: Time)
    ensures var o := UpdateSpec(tasks, nextId, user, id, body, now);
      o.response.TaskJson? ==>
        UpdateSpec(o.tasks, o.nextId, user, id, body, later) == Outcome(o.response, o.tasks, o.nextId)
  {
    var o := UpdateSpec(tasks, nextId, user, id, body, now);
    if o.response.TaskJson? {
      var e := Edited(tasks[id], body.data).value;
      var t := o.tasks[id];
      assert t.(updatedAt := e.updatedAt) == e;
      assert Violations(t) == Violations(e);
      EditedIsStable(tasks[id], body.data, t.updatedAt);
      assert o.tasks[id := t] == o.tasks;
    }
  }

  /** The owner's delete removes exactly that task, answers with the fixed
      message, and the task is a 404 afterwards. */
  lemma DeleteRemovesExactlyThatTask(tasks: Tasks, nextId: int, user: UserId, id: int)
    requires id in tasks && tasks[id].owner == Some(user)
    ensures var o := DeleteSpec(tasks, nextId, user, id);
      && o.response == Deleted("Task deleted successfully")
      && o.tasks.Keys == tasks.Keys - {id}
      && (forall k :: k in o.tasks ==> o.tasks[k] == tasks[k])
      && Show(o.tasks, user, id) == NotFound
  {
  }
}
