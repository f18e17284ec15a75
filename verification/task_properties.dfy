/** Properties of the task controller that relate its handlers: the listing
    only ever shows the requester's tasks, counts exactly the matching ones,
    returns a sorted slice, and sees what create and remove did. */
module TaskProperties {
  import opened Wrappers
  import opened TaskOrder
  import opened TaskController
  import QueryParams

  /** Every listed task is a stored task of the requester that satisfies the
      query, whatever the query says. */
  lemma ListingIsPinnedToRequester(s: Store, me: UserId, q: Query, textMatches: (string, string) -> bool)
    ensures var r := GetAll(s, me, q, textMatches);
      r.status == 200 ==>
        forall d :: d in r.body.tasks ==>
          && d.task.user == me
          && d.id in s.tasks && s.tasks[d.id] == d.task
          && Matches(BuildFilter(q, me), d.task, textMatches)
  {
    var r := GetAll(s, me, q, textMatches);
    if r.status == 200 {
      var all := Ranked(s, BuildFilter(q, me), SortOrder(q.sort), textMatches);
      var selected := Select(DocsBelow(s.tasks, s.nextId), BuildFilter(q, me), textMatches);
      forall d | d in r.body.tasks
        ensures d in selected
      {
        var k :| 0 <= k < |r.body.tasks| && r.body.tasks[k] == d;
        assert d in multiset(all);
      }
    }
  }

  /** In a valid collection the ranked list holds exactly the matching
      stored tasks, so `total` is the number of matching tasks. */
  lemma RankedIsExactlyMatching(s: Store, f: Filter, order: seq<SortKey>, textMatches: (string, string) -> bool, d: Doc)
    requires Valid(s)
    ensures d in Ranked(s, f, order, textMatches) <==>
      d.id in s.tasks && s.tasks[d.id] == d.task && Matches(f, d.task, textMatches)
  {
    var selected := Select(DocsBelow(s.tasks, s.nextId), f, textMatches);
    assert d in Ranked(s, f, order, textMatches) <==> d in multiset(selected);
  }

  /** With a positive limit and a first page or later, the listing is the
      slice `[skip, skip + limit)` of the ranked list, in order. */
  lemma PageIsSortedSlice(s: Store, me: UserId, q: Query, textMatches: (string, string) -> bool, page: int, limit: int)
    requires page == QueryParams.IntParam(q.page, QueryParams.DefaultPage) && page > 0
    requires limit == QueryParams.IntParam(q.limit, QueryParams.DefaultLimit) && limit > 0
    ensures var r := GetAll(s, me, q, textMatches);
      var all := Ranked(s, BuildFilter(q, me), SortOrder(q.sort), textMatches);
      && r.status == 200
      && |r.body.tasks| <= limit
      && Sorted(SortOrder(q.sort), r.body.tasks)
      && (forall k :: 0 <= k < |r.body.tasks| ==> r.body.tasks[k] == all[(page - 1) * limit + k])
      && ((page - 1) * limit + limit <= |all| ==> |r.body.tasks| == limit)
  {
    var all := Ranked(s, BuildFilter(q, me), SortOrder(q.sort), textMatches);
    var skip := (page - 1) * limit;
    ProductNonNegative(page - 1, limit);
    WindowSorted(SortOrder(q.sort), all, skip, limit);
  }

  lemma ProductNonNegative(a: int, b: int)
    requires a >= 0 && b >= 0
    ensures a * b >= 0
  {
  }

  /** A window of a sorted list is sorted, and is the run of at most
      `limit` documents from `skip` on. */
  lemma WindowSorted(order: seq<SortKey>, docs: seq<Doc>, skip: nat, limit: int)
    requires limit > 0
    requires Sorted(order, docs)
    ensures Sorted(order, Window(docs, skip, limit))
    ensures var w := Window(docs, skip, limit);
      && |w| <= limit
      && (forall k :: 0 <= k < |w| ==> w[k] == docs[skip + k])
      && (skip + limit <= |docs| ==> |w| == limit)
  {
    var w := Window(docs, skip, limit);
    forall j, k | 0 <= j < k < |w| ensures Compare(order, w[j].task, w[k].task) <= 0 {
      assert w[j] == docs[skip + j] && w[k] == docs[skip + k];
    }
  }

  /** A task created by a user is listed by that user's unfiltered query. */
  lemma CreatedTaskIsListed(s: Store, me: UserId, input: NewTask, order: seq<SortKey>, textMatches: (string, string) -> bool)
    requires Valid(s)
    ensures var r := CreateTask(s, me, input);
      r.body.doc in Ranked(r.store, Filter(me, None, None, None), order, textMatches)
  {
    var r := CreateTask(s, me, input);
    RankedIsExactlyMatching(r.store, Filter(me, None, None, None), order, textMatches, r.body.doc);
  }

  /** After a successful remove, no listing shows the task and removing it
      again answers 404. */
  lemma RemovedTaskIsGone(s: Store, me: UserId, id: TaskId, q: Query, textMatches: (string, string) -> bool)
    requires RemoveTask(s, me, id).status == 204
    ensures var after := RemoveTask(s, me, id).store;
      && RemoveTask(after, me, id).status == 404
      && forall d :: d in Ranked(after, BuildFilter(q, me), SortOrder(q.sort), textMatches) ==> d.id != id
  {
    var after := RemoveTask(s, me, id).store;
    var selected := Select(DocsBelow(after.tasks, after.nextId), BuildFilter(q, me), textMatches);
    forall d | d in Ranked(after, BuildFilter(q, me), SortOrder(q.sort), textMatches)
      ensures d.id != id
    {
      assert d in multiset(selected);
    }
  }

  /** An update that carries only a valid status stores what the status
      handler stores, and answers 201 where that handler answers 200. */
  lemma UpdateAgreesWithStatusChange(s: Store, me: UserId, id: TaskId, status: string)
    requires status in Statuses
    ensures var u := UpdateTask(s, me, id, Changes(None, None, Some(status), None, None));
      var v := UpdateTaskStatus(s, me, id, Some(status));
      && u.store == v.store
      && (u.status == 201 <==> v.status == 200)
  {
  }

  /** After a successful update that sets a status, the task is listed
      under that status, with its new fields. */
  lemma UpdatedTaskIsListed(s: Store, me: UserId, id: TaskId, c: Changes, order: seq<SortKey>, textMatches: (string, string) -> bool)
    requires Valid(s)
    requires c.status.Some?
    requires UpdateTask(s, me, id, c).status == 201
    ensures var r := UpdateTask(s, me, id, c);
      && r.body.One?
      && r.body.doc in Ranked(r.store, Filter(me, c.status, None, None), order, textMatches)
  {
    var r := UpdateTask(s, me, id, c);
    RankedIsExactlyMatching(r.store, Filter(me, c.status, None, None), order, textMatches, r.body.doc);
  }
}
