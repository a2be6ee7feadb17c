/** `sortIssuesForImport`: parents before children, by a memoised depth. */
module ImportOrder {
  import opened HistoryTypes
  import opened Optional
  import opened Sets

  predicate HasParent(byId: map<Id, Issue>, id: Id)
    requires id in byId
  {
    byId[id].parentId.Some? && byId[id].parentId.value in byId
  }

  /** `d` gives every issue its true depth: the number of its ancestors among the source issues. */
  ghost predicate IsDepthMap(byId: map<Id, Issue>, d: map<Id, nat>) {
    && d.Keys == byId.Keys
    && forall id :: id in byId ==> d[id] == if HasParent(byId, id) then d[byId[id].parentId.value] + 1 else 0
  }

  ghost predicate HasTop(byId: map<Id, Issue>, s: set<Id>)
    requires s <= byId.Keys
  {
    exists id :: id in s && !(HasParent(byId, id) && byId[id].parentId.value in s)
  }

  /** No set of issues goes round in its own parent links. */
  ghost predicate Acyclic(byId: map<Id, Issue>) {
    forall s: set<Id> :: s != {} && s <= byId.Keys ==> HasTop(byId, s)
  }

  function TrueDepth(byId: map<Id, Issue>, d: map<Id, nat>, id: Id): int
    requires id in byId
  {
    if !HasParent(byId, id) then 0
    else if byId[id].parentId.value in d then d[byId[id].parentId.value] + 1
    else -1
  }

  ghost predicate PartialDepths(byId: map<Id, Issue>, d: map<Id, nat>) {
    d.Keys <= byId.Keys && forall id :: id in d ==> d[id] == TrueDepth(byId, d, id)
  }

  /** Depths can be completed one top issue at a time. */
  lemma {:induction false} CompleteDepths(byId: map<Id, Issue>, d: map<Id, nat>) returns (full: map<Id, nat>)
    requires Acyclic(byId) && PartialDepths(byId, d)
    ensures IsDepthMap(byId, full)
    decreases byId.Keys - d.Keys
  {
    var rest := byId.Keys - d.Keys;
    if rest == {} {
      forall id | id in byId ensures id in d {
        assert id !in rest;
      }
      full := d;
    } else {
      assert HasTop(byId, rest);
      var id :| id in rest && !(HasParent(byId, id) && byId[id].parentId.value in rest);
      var more := d[id := TrueDepth(byId, d, id)];
      assert byId.Keys - more.Keys == rest - {id};
      forall x | x in more ensures more[x] == TrueDepth(byId, more, x) {
        assert x != id ==> d[x] == TrueDepth(byId, d, x);
      }
      full := CompleteDepths(byId, more);
    }
  }

  lemma {:induction false} TopAbove(byId: map<Id, Issue>, d: map<Id, nat>, s: set<Id>, id: Id)
    requires IsDepthMap(byId, d) && s <= byId.Keys && id in s
    ensures HasTop(byId, s)
    decreases d[id]
  {
    if HasParent(byId, id) && byId[id].parentId.value in s {
      TopAbove(byId, d, s, byId[id].parentId.value);
    }
  }

  /** Depths exist exactly when the parent links have no cycle. */
  lemma DepthsExistIffAcyclic(byId: map<Id, Issue>)
    ensures Acyclic(byId) <==> exists d: map<Id, nat> :: IsDepthMap(byId, d)
  {
    if Acyclic(byId) {
      var full := CompleteDepths(byId, map[]);
    }
    if d: map<Id, nat> :| IsDepthMap(byId, d) {
      forall s: set<Id> | s != {} && s <= byId.Keys ensures HasTop(byId, s) {
        var id := Member(s);
        TopAbove(byId, d, s, id);
      }
    }
  }

  ghost predicate Agrees(memo: map<Id, nat>, d: map<Id, nat>) {
    forall id :: id in memo ==> id in d && memo[id] == d[id]
  }

  predicate ComesFirst(d: map<Id, nat>, left: Issue, right: Issue)
    requires left.id in d && right.id in d
  {
    if d[left.id] != d[right.id] then d[left.id] < d[right.id]
    else if left.createdAt != right.createdAt then left.createdAt < right.createdAt
    else left.id <= right.id
  }

  ghost predicate InImportOrder(d: map<Id, nat>, order: seq<Issue>) {
    && (forall i :: 0 <= i < |order| ==> order[i].id in d)
    && forall i, j :: 0 <= i < j < |order| ==> ComesFirst(d, order[i], order[j])
  }

  lemma SlotKeepsOrder(d: map<Id, nat>, order: seq<Issue>, issue: Issue, at: nat)
    requires at <= |order|
    ensures InImportOrder(d, order) && issue.id in d
            && (forall k :: 0 <= k < at ==> ComesFirst(d, order[k], issue))
            && (at < |order| ==> !ComesFirst(d, order[at], issue))
            ==> InImportOrder(d, order[..at] + [issue] + order[at..])
  {
  }

  class DepthMemo {
    const byId: map<Id, Issue>
    var memo: map<Id, nat>

    constructor (byId: map<Id, Issue>)
      ensures this.byId == byId && memo == map[]
    {
      this.byId := byId;
      memo := map[];
    }

    /** Terminates on every parent graph.  If `d` is the true depth, the memo never leaves it,
        whatever was asked before; `stack` holds the issues whose depth is being computed. */
    method DepthFor(issue: Issue, stack: set<Id>, ghost d: map<Id, nat>) returns (depth: nat)
      requires issue.id in byId && byId[issue.id] == issue
      requires forall id :: id in byId ==> byId[id].id == id
      modifies this
      ensures IsDepthMap(byId, d) && Agrees(old(memo), d) && (forall id :: id in stack && id in d ==> d[id] > d[issue.id]) ==>
        depth == d[issue.id] && Agrees(memo, d)
      decreases byId.Keys - stack
    {
      if issue.id in memo {
        return memo[issue.id];
      }
      if issue.parentId == None {
        memo := memo[issue.id := 0];
        return 0;
      }
      if issue.id in stack {
        memo := memo[issue.id := 0];
        return 0;
      }
      var parentId := issue.parentId.value;
      if parentId !in byId {
        memo := memo[issue.id := 0];
        return 0;
      }
      assert issue.id in byId.Keys - stack;
      var above := DepthFor(byId[parentId], stack + {issue.id}, d);
      depth := above + 1;
      memo := memo[issue.id := depth];
    }

    /** The comparator; a result of at most zero keeps `left` before `right`. */
    method Compare(left: Issue, right: Issue, ghost d: map<Id, nat>) returns (delta: int)
      requires forall id :: id in byId ==> byId[id].id == id
      requires left.id in byId && byId[left.id] == left && right.id in byId && byId[right.id] == right
      modifies this
      ensures IsDepthMap(byId, d) && Agrees(old(memo), d) ==> Agrees(memo, d) && (delta <= 0 <==> ComesFirst(d, left, right))
    {
      var leftDepth: int := DepthFor(left, {}, d);
      var rightDepth: int := DepthFor(right, {}, d);
      delta := leftDepth - rightDepth;
      if delta != 0 { return; }
      delta := left.createdAt - right.createdAt;
      if delta != 0 { return; }
      delta := left.id - right.id;
    }

    /** The position behind the leading rows that do not come after `issue`. */
    method FindSlot(order: seq<Issue>, issue: Issue, ghost d: map<Id, nat>) returns (at: nat)
      requires forall id :: id in byId ==> byId[id].id == id
      requires forall x :: x in order || x == issue ==> x.id in byId && byId[x.id] == x
      modifies this
      ensures at <= |order|
      ensures IsDepthMap(byId, d) && Agrees(old(memo), d) ==>
        && Agrees(memo, d)
        && (forall k :: 0 <= k < at ==> ComesFirst(d, order[k], issue))
        && (at < |order| ==> !ComesFirst(d, order[at], issue))
    {
      at := 0;
      while at < |order|
        invariant at <= |order|
        invariant IsDepthMap(byId, d) && Agrees(old(memo), d) ==>
          Agrees(memo, d) && forall k :: 0 <= k < at ==> ComesFirst(d, order[k], issue)
      {
        assert order[at] in order;
        var delta := Compare(order[at], issue, d);
        if delta > 0 { return; }
        at := at + 1;
      }
    }

    predicate Knows(rows: seq<Issue>)
    {
      (forall id :: id in byId ==> byId[id].id == id) && forall x :: x in rows ==> x.id in byId && byId[x.id] == x
    }

    method InsertRow(order: seq<Issue>, row: Issue, ghost d: map<Id, nat>) returns (more: seq<Issue>)
      requires Knows(order) && Knows([row])
      modifies this
      ensures Knows(more) && multiset(more) == multiset(order) + multiset{row}
      ensures IsDepthMap(byId, d) && Agrees(old(memo), d) && InImportOrder(d, order) ==>
        Agrees(memo, d) && InImportOrder(d, more)
    {
      assert row in [row];
      var at := FindSlot(order, row, d);
      SlotKeepsOrder(d, order, row, at);
      assert order == order[..at] + order[at..];
      more := order[..at] + [row] + order[at..];
    }

    method Sort(rows: seq<Issue>, ghost d: map<Id, nat>) returns (order: seq<Issue>)
      requires Knows(rows)
      modifies this
      ensures multiset(order) == multiset(rows)
      ensures IsDepthMap(byId, d) && Agrees(old(memo), d) ==> InImportOrder(d, order)
    {
      order := [];
      for i := 0 to |rows|
        invariant Knows(order)
        invariant multiset(order) == multiset(rows[..i])
        invariant IsDepthMap(byId, d) && Agrees(old(memo), d) ==> Agrees(memo, d) && InImportOrder(d, order)
      {
        assert rows[i] in rows;
        assert rows[..i + 1] == rows[..i] + [rows[i]];
        order := InsertRow(order, rows[i], d);
      }
      assert rows[..|rows|] == rows;
    }
  }

  predicate UniqueIssueIds(rows: seq<Issue>) {
    forall i, j :: 0 <= i < j < |rows| ==> rows[i].id != rows[j].id
  }

  function ById(rows: seq<Issue>): (m: map<Id, Issue>) {
    if |rows| == 0 then map[] else ById(rows[..|rows| - 1])[rows[|rows| - 1].id := rows[|rows| - 1]]
  }

  lemma {:induction false} ByIdFinds(rows: seq<Issue>)
    requires UniqueIssueIds(rows)
    ensures forall x :: x in rows ==> x.id in ById(rows) && ById(rows)[x.id] == x
    ensures forall id :: id in ById(rows) ==> ById(rows)[id].id == id && ById(rows)[id] in rows
  {
    if |rows| > 0 {
      var before := rows[..|rows| - 1];
      ByIdFinds(before);
      assert rows == before + [rows[|rows| - 1]];
    }
  }

  method SortIssuesForImport(rows: seq<Issue>, ghost d: map<Id, nat>) returns (order: seq<Issue>)
    requires UniqueIssueIds(rows)
    ensures multiset(order) == multiset(rows)
    ensures IsDepthMap(ById(rows), d) ==> InImportOrder(d, order)
    ensures IsDepthMap(ById(rows), d) ==> forall i, j :: 0 <= i < j < |order| ==> ShallowThenOld(d, order[i], order[j])
  {
    ByIdFinds(rows);
    var depths := new DepthMemo(ById(rows));
    order := depths.Sort(rows, d);
  }

  /** Lower depths come first, then earlier issues, then smaller ids. */
  predicate ShallowThenOld(d: map<Id, nat>, left: Issue, right: Issue) {
    && left.id in d && right.id in d && d[left.id] <= d[right.id]
    && (d[left.id] == d[right.id] ==> left.createdAt <= right.createdAt)
    && (d[left.id] == d[right.id] && left.createdAt == right.createdAt ==> left.id <= right.id)
  }

  /** In import order every parent that is imported too precedes its children. */
  lemma ParentsPrecede(rows: seq<Issue>, d: map<Id, nat>, order: seq<Issue>, i: nat)
    requires UniqueIssueIds(rows) && multiset(order) == multiset(rows)
    requires IsDepthMap(ById(rows), d) && InImportOrder(d, order)
    requires i < |order| && order[i].parentId.Some? && order[i].parentId.value in ById(rows)
    ensures exists j :: 0 <= j < i && order[j].id == order[i].parentId.value
  {
    ByIdFinds(rows);
    assert order[i] in multiset(order);
    assert order[i] in rows;
    var parent := ById(rows)[order[i].parentId.value];
    assert parent in multiset(rows);
    assert parent in order;
    var j :| 0 <= j < |order| && order[j] == parent;
    assert d[order[i].id] == d[parent.id] + 1;
  }
}
