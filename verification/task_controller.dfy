/** The task controller: listing with filter, sort and pagination, and the
    create, update, status-change and remove handlers with their ownership
    checks, over an in-memory task collection. */
module TaskController {
  import opened Wrappers
  import opened TaskOrder
  import QueryParams

  /** The schema default for `status`. */
  const DefaultStatus: string := "pending"

  /** The task collection. Ids are handed out in increasing order, so the
      collection's natural order is the order of ids. */
  datatype Store = Store(tasks: map<TaskId, Task>, nextId: TaskId)

  predicate Valid(s: Store)
  {
    forall id :: id in s.tasks ==> id < s.nextId
  }

  datatype Body =
    | NoContent
    | Failure(error: string)
    | One(doc: Doc)
    | Page(tasks: seq<Doc>, total: nat, page: int, pages: int)

  /** The HTTP status and JSON body sent, and the collection afterwards. */
  datatype Reply = Reply(status: nat, body: Body, store: Store)

  // ---------------------------------------------------------------------
  // Listing
  // ---------------------------------------------------------------------

  /** The query-string parameters, each undefined or a single string. */
  datatype Query = Query(
    status: Option<string>,
    category: Option<string>,
    search: Option<string>,
    sort: Option<string>,
    page: Option<string>,
    limit: Option<string>)

  /** The query filter; `search` is a pattern matched against title and
      description. */
  datatype Filter = Filter(user: UserId, status: Option<string>, category: Option<string>, search: Option<string>)

  /** `filter = { user }`, plus `status`, `category` and the search clause
      for the parameters that are present and non-empty. */
  function BuildFilter(q: Query, me: UserId): (f: Filter)
    ensures f.user == me
    ensures f.status.Some? <==> Present(q.status)
    ensures f.category.Some? <==> Present(q.category)
    ensures f.search.Some? <==> Present(q.search)
    ensures f.status.Some? ==> f.status == q.status
    ensures f.category.Some? ==> f.category == q.category
    ensures f.search.Some? ==> f.search == q.search
  {
    Filter(me,
      if Present(q.status) then q.status else None,
      if Present(q.category) then q.category else None,
      if Present(q.search) then q.search else None)
  }

  /** Whether a task satisfies the filter. `textMatches(pattern, text)` is the
      case-insensitive regular-expression match, not modelled. */
  predicate Matches(f: Filter, t: Task, textMatches: (string, string) -> bool)
  {
    && t.user == f.user
    && (f.status.Some? ==> t.status == f.status.value)
    && (f.category.Some? ==> t.category == f.category)
    && (f.search.Some? ==>
          || (t.title.Some? && textMatches(f.search.value, t.title.value))
          || (t.description.Some? && textMatches(f.search.value, t.description.value)))
  }

  /** The stored documents with an id below `n`, in id order. */
  function DocsBelow(tasks: map<TaskId, Task>, n: nat): (r: seq<Doc>)
    ensures forall d :: d in r <==> d.id < n && d.id in tasks && tasks[d.id] == d.task
    ensures forall j, k :: 0 <= j < k < |r| ==> r[j].id < r[k].id
  {
    if n == 0 then []
    else DocsBelow(tasks, n - 1) + (if n - 1 in tasks then [Doc(n - 1, tasks[n - 1])] else [])
  }

  /** The documents of `docs` that satisfy the filter, in their order. */
  function Select(docs: seq<Doc>, f: Filter, textMatches: (string, string) -> bool): (r: seq<Doc>)
    ensures |r| <= |docs|
    ensures forall d :: d in r <==> d in docs && Matches(f, d.task, textMatches)
  {
    if docs == [] then []
    else
      var rest := Select(docs[1..], f, textMatches);
      if Matches(f, docs[0].task, textMatches) then [docs[0]] + rest else rest
  }

  /** `Task.find(filter).sort(order)` before skip and limit. */
  function Ranked(s: Store, f: Filter, order: seq<SortKey>, textMatches: (string, string) -> bool): (r: seq<Doc>)
    ensures Sorted(order, r)
  {
    Sort(order, Select(DocsBelow(s.tasks, s.nextId), f, textMatches))
  }

  /** `query.skip(skip).limit(limit)`: the database returns at most |limit|
      documents for a negative limit. */
  function Window(docs: seq<Doc>, skip: nat, limit: int): (r: seq<Doc>)
    requires limit != 0
    ensures |r| <= if limit > 0 then limit else -limit
    ensures forall k :: 0 <= k < |r| ==> skip + k < |docs| && r[k] == docs[skip + k]
    ensures skip < |docs| ==> |r| == if |docs| - skip < QueryParams.Abs(limit) then |docs| - skip else QueryParams.Abs(limit)
  {
    var n := QueryParams.Abs(limit);
    if skip >= |docs| then [] else if |docs| - skip < n then docs[skip..] else docs[skip..skip + n]
  }

  /** `getAllDAta`. A negative skip is refused by the database, which the
      handler turns into a 500 reply. Documents that tie under the sort
      keys are taken in id order. */
  function GetAll(s: Store, me: UserId, q: Query, textMatches: (string, string) -> bool): (r: Reply)
    ensures r.store == s
    ensures r.status == 200 || r.status == 500
    ensures var page := QueryParams.IntParam(q.page, QueryParams.DefaultPage);
      var limit := QueryParams.IntParam(q.limit, QueryParams.DefaultLimit);
      var all := Ranked(s, BuildFilter(q, me), SortOrder(q.sort), textMatches);
      if (page - 1) * limit < 0 then r == Reply(500, Failure("Failed To fetch tasks!"), s)
      else
        && r.status == 200 && r.body.Page?
        && r.body.total == |all|
        && r.body.page == page
        && r.body.pages == QueryParams.CeilDiv(|all|, limit)
        && r.body.tasks == Window(all, (page - 1) * limit, limit)
  {
    var f := BuildFilter(q, me);
    var order := SortOrder(q.sort);
    var page := QueryParams.IntParam(q.page, QueryParams.DefaultPage);
    var limit := QueryParams.IntParam(q.limit, QueryParams.DefaultLimit);
    var skip := (page - 1) * limit;
    var all := Ranked(s, f, order, textMatches);
    if skip < 0 then Reply(500, Failure("Failed To fetch tasks!"), s)
    else Reply(200, Page(Window(all, skip, limit), |all|, page, QueryParams.CeilDiv(|all|, limit)), s)
  }

  // ---------------------------------------------------------------------
  // Create, update, status change, remove
  // ---------------------------------------------------------------------

  /** The fields `createTask` reads from the request body. `owner` stands for
      any owner a client may put in the body; the handler ignores it. */
  datatype NewTask = NewTask(
    title: Option<string>,
    description: Option<string>,
    category: Option<string>,
    dueDate: Option<int>,
    owner: Option<UserId>)

  /** `createTask`: the owner is always the authenticated user. */
  function CreateTask(s: Store, me: UserId, input: NewTask): (r: Reply)
    ensures r.status == 201 && r.body.One?
    ensures r.body.doc.id == s.nextId
    ensures Valid(s) ==> r.body.doc.id !in s.tasks
    ensures var t := r.body.doc.task;
      && t.user == me
      && t.title == input.title && t.description == input.description && t.category == input.category
      && t.dueDate == input.dueDate
      && t.status == DefaultStatus
      && t.createdAt.None?
    ensures r.store.nextId == s.nextId + 1
    ensures r.store.tasks == s.tasks[r.body.doc.id := r.body.doc.task]
    ensures Valid(s) ==> Valid(r.store)
  {
    var t := Task(input.title, input.description, DefaultStatus, input.category, input.dueDate, None, me);
    Reply(201, One(Doc(s.nextId, t)), Store(s.tasks[s.nextId := t], s.nextId + 1))
  }

  /** The 404 and 403 checks shared by the handlers that change a task. */
  function Guard(s: Store, me: UserId, id: TaskId): (r: Option<Reply>)
    ensures r.None? <==> id in s.tasks && s.tasks[id].user == me
    ensures id !in s.tasks ==> r == Some(Reply(404, Failure("Task not found"), s))
    ensures id in s.tasks && s.tasks[id].user != me ==> r == Some(Reply(403, Failure("Not authorized"), s))
  {
    if id !in s.tasks then Some(Reply(404, Failure("Task not found"), s))
    else if s.tasks[id].user != me then Some(Reply(403, Failure("Not authorized"), s))
    else None
  }

  /** The fields `updateTask` reads; an absent field leaves the stored value. */
  datatype Changes = Changes(
    title: Option<string>,
    description: Option<string>,
    status: Option<string>,
    category: Option<string>,
    dueDate: Option<int>)

  function Apply(t: Task, c: Changes): Task
  {
    t.(title := if c.title.Some? then c.title else t.title,
       description := if c.description.Some? then c.description else t.description,
       status := c.status.GetOr(t.status),
       category := if c.category.Some? then c.category else t.category,
       dueDate := if c.dueDate.Some? then c.dueDate else t.dueDate)
  }

  /** `updateTask`, which answers 201 on success. */
  function UpdateTask(s: Store, me: UserId, id: TaskId, c: Changes): (r: Reply)
    ensures r.status in {201, 403, 404}
    ensures r.status == 404 <==> id !in s.tasks
    ensures r.status == 403 <==> id in s.tasks && s.tasks[id].user != me
    ensures r.status == 404 ==> r == Reply(404, Failure("Task not found"), s)
    ensures r.status == 403 ==> r == Reply(403, Failure("Not authorized"), s)
    ensures r.status != 201 ==> r.store == s
    ensures r.status == 201 ==>
      && r.store.nextId == s.nextId
      && r.store.tasks.Keys == s.tasks.Keys
      && r.store.tasks[id].user == me
      && (forall other :: other in s.tasks && other != id ==> r.store.tasks[other] == s.tasks[other])
      && r.body == One(Doc(id, r.store.tasks[id]))
    ensures r.status == 201 ==>
      var before, after := s.tasks[id], r.store.tasks[id];
      && (c.title.Some? ==> after.title == c.title) && (c.title.None? ==> after.title == before.title)
      && (c.description.Some? ==> after.description == c.description)
      && (c.description.None? ==> after.description == before.description)
      && (c.status.Some? ==> after.status == c.status.value) && (c.status.None? ==> after.status == before.status)
      && (c.category.Some? ==> after.category == c.category) && (c.category.None? ==> after.category == before.category)
      && (c.dueDate.Some? ==> after.dueDate == c.dueDate) && (c.dueDate.None? ==> after.dueDate == before.dueDate)
      && after.createdAt == before.createdAt
    ensures Valid(s) ==> Valid(r.store)
  {
    match Guard(s, me, id)
    case Some(refusal) => refusal
    case None =>
      var t := Apply(s.tasks[id], c);
      Reply(201, One(Doc(id, t)), s.(tasks := s.tasks[id := t]))
  }

  /** `updateTaskStatus`: the status is checked before the task is looked up. */
  function UpdateTaskStatus(s: Store, me: UserId, id: TaskId, status: Option<string>): (r: Reply)
    ensures r.status in {200, 400, 403, 404}
    ensures r.status == 400 <==> !Present(status) || status.value !in Statuses
    ensures r.status == 404 <==> Present(status) && status.value in Statuses && id !in s.tasks
    ensures r.status == 403 <==> Present(status) && status.value in Statuses && id in s.tasks && s.tasks[id].user != me
    ensures r.status == 400 ==> r == Reply(400, Failure("No Status Provided"), s)
    ensures r.status == 404 ==> r == Reply(404, Failure("Task not found"), s)
    ensures r.status == 403 ==> r == Reply(403, Failure("Not authorized to update this task"), s)
    ensures r.status != 200 ==> r.store == s
    ensures r.status == 200 ==>
      && r.store.nextId == s.nextId
      && r.store.tasks == s.tasks[id := s.tasks[id].(status := status.value)]
      && r.body == One(Doc(id, r.store.tasks[id]))
  {
    if !Present(status) || status.value !in Statuses then Reply(400, Failure("No Status Provided"), s)
    else if id !in s.tasks then Reply(404, Failure("Task not found"), s)
    else if s.tasks[id].user != me then Reply(403, Failure("Not authorized to update this task"), s)
    else
      var t := s.tasks[id].(status := status.value);
      Reply(200, One(Doc(id, t)), s.(tasks := s.tasks[id := t]))
  }

  /** `removeTask`, which answers 204 with no body on success. */
  function RemoveTask(s: Store, me: UserId, id: TaskId): (r: Reply)
    ensures r.status in {204, 403, 404}
    ensures r.status == 404 <==> id !in s.tasks
    ensures r.status == 403 <==> id in s.tasks && s.tasks[id].user != me
    ensures r.status == 404 ==> r == Reply(404, Failure("Task not found"), s)
    ensures r.status == 403 ==> r == Reply(403, Failure("Not authorized"), s)
    ensures r.status != 204 ==> r.store == s
    ensures r.status == 204 ==>
      && r.body == NoContent
      && r.store.nextId == s.nextId
      && r.store.tasks.Keys == s.tasks.Keys - {id}
      && forall other :: other in r.store.tasks ==> r.store.tasks[other] == s.tasks[other]
  {
    match Guard(s, me, id)
    case Some(refusal) => refusal
    case None => Reply(204, NoContent, s.(tasks := s.tasks - {id}))
  }
}
