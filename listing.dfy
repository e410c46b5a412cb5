/**
 * The list operation of the task controller: an optional status filter,
 * newest-first order, page/limit pagination, the filtered total and the
 * three status counts taken over the whole collection.
 */
module Listing {
  import opened Wrappers
  import opened Tasks

  const DefaultPage := 1
  const DefaultLimit := 10

  /** The query string of a list request; `None` is a parameter that is not given. */
  datatype ListQuery = ListQuery(status: Option<string>, page: Option<nat>, limit: Option<nat>)

  /** Page and limit, when given, are positive numbers. */
  predicate WellFormedQuery(q: ListQuery) {
    (q.page.Some? ==> q.page.value >= 1) && (q.limit.Some? ==> q.limit.value >= 1)
  }

  function PageOf(q: ListQuery): (p: nat)
    requires WellFormedQuery(q)
    ensures p >= 1
  {
    if q.page.Some? then q.page.value else DefaultPage
  }

  function LimitOf(q: ListQuery): (l: nat)
    requires WellFormedQuery(q)
    ensures l >= 1
  {
    if q.limit.Some? then q.limit.value else DefaultLimit
  }

  /** The status filter applies only when the parameter is given and not empty. */
  function FilterOf(q: ListQuery): Option<string> {
    if q.status.Some? && q.status.value != "" then q.status else None
  }

  /** Whether a task satisfies the (optional) equality filter on its status. */
  predicate Matches(filter: Option<string>, t: Task) {
    filter.None? || StatusName(t.status) == filter.value
  }

  /** The tasks of `s` that satisfy the filter, in their order in `s`. */
  function Select(s: seq<Task>, filter: Option<string>): (r: seq<Task>)
    ensures |r| <= |s|
  {
    if s == [] then []
    else
      var init, last := s[..|s| - 1], s[|s| - 1];
      assert s == init + [last];
      Select(init, filter) + (if Matches(filter, last) then [last] else [])
  }

  /** The selection holds exactly the tasks of `s` that match the filter. */
  lemma {:induction false} SelectMembers(s: seq<Task>, filter: Option<string>)
    ensures forall t :: t in Select(s, filter) <==> t in s && Matches(filter, t)
  {
    if s != [] {
      var init, last := s[..|s| - 1], s[|s| - 1];
      assert s == init + [last];
      SelectMembers(init, filter);
    }
  }

  /** Without a filter nothing is left out. */
  lemma {:induction false} SelectAll(s: seq<Task>)
    ensures Select(s, None) == s
  {
    if s != [] {
      SelectAll(s[..|s| - 1]);
      assert s == s[..|s| - 1] + [s[|s| - 1]];
    }
  }

  /** The wire name of a status, as a filter. */
  function StatusFilter(st: Status): Option<string> {
    Some(StatusName(st))
  }

  /** Every task has exactly one of the three statuses, so the three status counts add up to the size of the collection. */
  lemma {:induction false} StatusCountsPartition(s: seq<Task>)
    ensures |Select(s, StatusFilter(Done))| + |Select(s, StatusFilter(Pending))| + |Select(s, StatusFilter(InProgress))| == |s|
  {
    if s != [] {
      StatusCountsPartition(s[..|s| - 1]);
    }
  }

  /** Sorted by creation time, newest first: Mongo's `sort({createdAt: -1})`. */
  predicate NewestFirst(s: seq<Task>) {
    forall i, j :: 0 <= i < j < |s| ==> s[i].createdAt >= s[j].createdAt
  }

  /** A task no older than everything in a newest-first sequence can go in front of it. */
  lemma PrependNewest(head: Task, rest: seq<Task>, older: seq<Task>, t: Task)
    requires NewestFirst(rest) && NewestFirst([head] + older)
    requires multiset(rest) == multiset(older) + multiset{t}
    requires t.createdAt <= head.createdAt
    ensures NewestFirst([head] + rest)
  {
    forall x | x in rest ensures x.createdAt <= head.createdAt {
      assert x in multiset(rest);
      if x != t {
        assert x in multiset(older);
        var j :| 0 <= j < |older| && older[j] == x;
        assert ([head] + older)[0] == head && ([head] + older)[j + 1] == x;
      }
    }
    var r := [head] + rest;
    forall i, j | 0 <= i < j < |r| ensures r[i].createdAt >= r[j].createdAt {
      assert r[j] == rest[j - 1];
      if i > 0 { assert r[i] == rest[i - 1]; }
    }
  }

  /** Puts `t` into a newest-first sequence, before the first task created earlier than it. */
  function Insert(t: Task, s: seq<Task>): (r: seq<Task>)
    requires NewestFirst(s)
    ensures NewestFirst(r)
    ensures multiset(r) == multiset(s) + multiset{t}
  {
    if s == [] || t.createdAt >= s[0].createdAt then [t] + s
    else
      var rest := Insert(t, s[1..]);
      assert [s[0]] + s[1..] == s;
      PrependNewest(s[0], rest, s[1..], t);
      [s[0]] + rest
  }

  /** The tasks of `s`, newest first. */
  function SortNewest(s: seq<Task>): (r: seq<Task>)
    ensures NewestFirst(r)
    ensures multiset(r) == multiset(s)
  {
    if s == [] then []
    else
      assert [s[0]] + s[1..] == s;
      Insert(s[0], SortNewest(s[1..]))
  }

  function Min(a: int, b: int): int {
    if a <= b then a else b
  }

  /** `Math.ceil(n / d)` for a count `n` and a positive divisor `d`. */
  function CeilDiv(n: nat, d: nat): (r: nat)
    requires d >= 1
    ensures r * d >= n
    ensures r == 0 || (r - 1) * d < n
  {
    var r := (n + d - 1) / d;
    assert (n + d - 1) == r * d + (n + d - 1) % d;
    r
  }

  /** The number of matching tasks that come before page `page`. */
  function Skip(page: nat, limit: nat): nat
    requires page >= 1
  {
    (page - 1) * limit
  }

  /** How many of `n` ordered tasks page `page` holds, `limit` to a page. */
  function PageLength(n: nat, page: nat, limit: nat): nat
    requires page >= 1
  {
    if Skip(page, limit) < n then Min(limit, n - Skip(page, limit)) else 0
  }

  /** Mongo's `skip(Skip(page, limit)).limit(limit)` over an ordered result. */
  function Paginate(s: seq<Task>, page: nat, limit: nat): (r: seq<Task>)
    requires page >= 1 && limit >= 1
    ensures |r| <= limit
    ensures |r| == PageLength(|s|, page, limit)
    ensures forall i :: 0 <= i < |r| ==> Skip(page, limit) + i < |s| && r[i] == s[Skip(page, limit) + i]
  {
    var from := Min(Skip(page, limit), |s|);
    s[from..Min(from + limit, |s|)]
  }

  /** A page of a newest-first sequence is newest-first, and holds only tasks of the sequence. */
  lemma PageOfOrdered(s: seq<Task>, page: nat, limit: nat)
    requires page >= 1 && limit >= 1 && NewestFirst(s)
    ensures NewestFirst(Paginate(s, page, limit))
    ensures forall t :: t in Paginate(s, page, limit) ==> t in multiset(s)
  {
    var r := Paginate(s, page, limit);
    forall t | t in r ensures t in multiset(s) {
      var i :| 0 <= i < |r| && r[i] == t;
      assert s[Skip(page, limit) + i] == t;
    }
  }

  /** Every task of the ordered selection is a task of the collection that matches the filter. */
  lemma OrderedMatches(all: seq<Task>, filter: Option<string>)
    ensures forall t :: t in multiset(SortNewest(Select(all, filter))) ==> t in all && Matches(filter, t)
  {
    var matching := Select(all, filter);
    SelectMembers(all, filter);
    forall t | t in multiset(SortNewest(matching)) ensures t in all && Matches(filter, t) {
      assert t in multiset(matching);
    }
  }

  /** The envelope of a successful list request. */
  datatype ListResponse = ListResponse(
    count: nat,
    totalTasks: nat,
    taskCompleted: nat,
    taskPending: nat,
    taskInProgress: nat,
    currentPage: nat,
    totalPages: nat,
    data: seq<Task>)

  /** `getAllTasks` over the collection `all`. */
  function List(all: seq<Task>, q: ListQuery): (r: ListResponse)
    requires WellFormedQuery(q)
    ensures r.count == |r.data| <= LimitOf(q)
    ensures r.currentPage == PageOf(q)
    ensures r.totalPages == CeilDiv(r.totalTasks, LimitOf(q))
    ensures r.totalTasks == |Select(all, FilterOf(q))|
    ensures r.totalTasks <= |all| && (FilterOf(q).None? ==> r.totalTasks == |all|)
    ensures r.taskCompleted + r.taskPending + r.taskInProgress == |all|
    ensures NewestFirst(r.data)
    ensures forall t :: t in r.data ==> t in all && Matches(FilterOf(q), t)
    ensures |r.data| == PageLength(|Select(all, FilterOf(q))|, PageOf(q), LimitOf(q))
    ensures forall i :: 0 <= i < |r.data| ==>
              r.data[i] == SortNewest(Select(all, FilterOf(q)))[Skip(PageOf(q), LimitOf(q)) + i]
  {
    var matching := Select(all, FilterOf(q));
    var ordered := SortNewest(matching);
    var data := Paginate(ordered, PageOf(q), LimitOf(q));
    assert |ordered| == |matching| by {
      assert |multiset(ordered)| == |multiset(matching)|;
    }
    StatusCountsPartition(all);
    SelectAll(all);
    PageOfOrdered(ordered, PageOf(q), LimitOf(q));
    OrderedMatches(all, FilterOf(q));
    ListResponse(
      |data|,
      |matching|,
      |Select(all, StatusFilter(Done))|,
      |Select(all, StatusFilter(Pending))|,
      |Select(all, StatusFilter(InProgress))|,
      PageOf(q),
      CeilDiv(|matching|, LimitOf(q)),
      data)
  }

  /**
   * How many tasks a page holds, given `CeilDiv(|s|, limit)` pages in all:
   * every page before the last is full, the last holds the remainder and
   * the pages after it are empty.
   */
  lemma PageSize(s: seq<Task>, page: nat, limit: nat)
    requires page >= 1 && limit >= 1
    ensures var pages := CeilDiv(|s|, limit);
            |Paginate(s, page, limit)| ==
              if page < pages then limit
              else if page == pages then |s| - Skip(page, limit)
              else 0
  {
    var pages := CeilDiv(|s|, limit);
    if page < pages {
      MulMonotone(page, pages - 1, limit);
    } else if page > pages {
      MulMonotone(pages, page - 1, limit);
    }
  }

  lemma MulMonotone(a: nat, b: nat, c: nat)
    requires a <= b
    ensures a * c <= b * c
  {
    assert b * c == a * c + (b - a) * c;
  }

  /** Pages 1 to `count`, one after another. */
  function Pages(s: seq<Task>, limit: nat, count: nat): seq<Task>
    requires limit >= 1
  {
    if count == 0 then [] else Pages(s, limit, count - 1) + Paginate(s, count, limit)
  }

  lemma {:induction false} PagesArePrefix(s: seq<Task>, limit: nat, count: nat)
    requires limit >= 1
    ensures Pages(s, limit, count) == s[..Min(count * limit, |s|)]
  {
    if count > 0 {
      PagesArePrefix(s, limit, count - 1);
      var before := (count - 1) * limit;
      assert count * limit == before + limit;
      assert Skip(count, limit) == before;
      var from := Min(before, |s|);
      assert Paginate(s, count, limit) == s[from..Min(from + limit, |s|)];
      assert Min(from + limit, |s|) == Min(count * limit, |s|);
      assert s[..from] + s[from..Min(count * limit, |s|)] == s[..Min(count * limit, |s|)];
    }
  }

  /**
   * The pages tile the ordered result: reading pages 1 to `totalPages` in
   * turn gives every task exactly once, in order.
   */
  lemma PagesCoverAll(s: seq<Task>, limit: nat)
    requires limit >= 1
    ensures Pages(s, limit, CeilDiv(|s|, limit)) == s
  {
    PagesArePrefix(s, limit, CeilDiv(|s|, limit));
  }

  /** Fifteen matching tasks at ten a page: two pages, the first full, the second with the other five. */
  lemma FifteenTasksTwoPages(all: seq<Task>, status: Option<string>)
    requires |Select(all, FilterOf(ListQuery(status, None, None)))| == 15
    ensures List(all, ListQuery(status, None, None)).totalPages == 2
    ensures List(all, ListQuery(status, Some(1), Some(10))).count == 10
    ensures List(all, ListQuery(status, Some(2), Some(10))).count == 5
  {
    var ordered := SortNewest(Select(all, FilterOf(ListQuery(status, None, None))));
    assert |ordered| == 15 by {
      assert |multiset(ordered)| == 15;
    }
    PageSize(ordered, 1, 10);
    PageSize(ordered, 2, 10);
  }
}
