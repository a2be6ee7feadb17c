/** Rows of the worktree history that is merged from one database into another.

Ids stand for uuids; their order stands for `localeCompare` on ids, times are epoch
milliseconds.  Columns that are only copied are collected in one field. */
module HistoryTypes {
  import opened Optional

  type Id = int

  datatype Status = InProgress | Todo | OtherStatus(name: string)

  datatype Issue = Issue(
    id: Id,
    parentId: Option<Id>,
    projectId: Option<Id>,
    workspaceId: Option<Id>,
    goalId: Option<Id>,
    assigneeAgentId: Option<Id>,
    assignedToUser: bool,
    createdByAgentId: Option<Id>,
    status: Status,
    createdAt: int,
    number: int,
    content: string)

  datatype Comment = Comment(id: Id, issueId: Id, authorAgentId: Option<Id>, createdAt: int, body: string)

  /** A document joined with its link to an issue; `content` is title, format and latest body. */
  datatype Document = Document(
    id: Id,
    issueId: Id,
    key: string,
    content: string,
    latestRevisionId: Option<Id>,
    latestRevisionNumber: int,
    createdByAgentId: Option<Id>,
    updatedByAgentId: Option<Id>,
    updatedByUser: Option<string>,
    createdAt: int,
    linkCreatedAt: int,
    updatedAt: int,
    linkUpdatedAt: int)

  datatype Revision = Revision(id: Id, documentId: Id, number: int, createdAt: int, createdByAgentId: Option<Id>, body: string)

  datatype Attachment = Attachment(
    id: Id, issueId: Id, commentId: Option<Id>, assetId: Id, objectKey: string, createdByAgentId: Option<Id>, createdAt: int)

  datatype Project = Project(id: Id, leadAgentId: Option<Id>, goalId: Option<Id>, content: string)

  datatype Workspace = Workspace(id: Id, projectId: Id, isPrimary: bool, createdAt: int)

  /** The rows read from the source database. */
  datatype Source = Source(
    issues: seq<Issue>,
    comments: seq<Comment>,
    documents: seq<Document>,
    revisions: seq<Revision>,
    attachments: seq<Attachment>,
    projects: seq<Project>,
    workspaces: seq<Workspace>)

  datatype Asset = Asset(objectKey: string, createdByAgentId: Option<Id>)

  /** The target database, one company. */
  datatype Db = Db(
    agents: set<Id>,
    goals: set<Id>,
    projects: map<Id, Project>,
    workspaces: map<Id, Workspace>,
    issues: map<Id, Issue>,
    comments: map<Id, Comment>,
    documents: map<Id, Document>,
    revisions: map<Id, Revision>,
    assets: map<Id, Asset>,
    attachments: map<Id, Attachment>,
    issueCounter: int)

  // ----- sorting, as `[...rows].sort(compare)` -----

  function Inserted<T>(rows: seq<T>, row: T, le: (T, T) -> bool): seq<T> {
    if |rows| > 0 && le(rows[0], row) then [rows[0]] + Inserted(rows[1..], row, le) else [row] + rows
  }

  function SortedRows<T>(rows: seq<T>, le: (T, T) -> bool): seq<T> {
    if |rows| == 0 then [] else Inserted(SortedRows(rows[..|rows| - 1], le), rows[|rows| - 1], le)
  }

  ghost predicate IsSorted<T>(rows: seq<T>, le: (T, T) -> bool) {
    forall i, j :: 0 <= i < j < |rows| ==> le(rows[i], rows[j])
  }

  ghost predicate TotalOrder<T(!new)>(le: (T, T) -> bool) {
    && (forall x, y :: le(x, y) || le(y, x))
    && (forall x, y, z :: le(x, y) && le(y, z) ==> le(x, z))
  }

  lemma {:induction false} InsertedPermutes<T>(rows: seq<T>, row: T, le: (T, T) -> bool)
    ensures multiset(Inserted(rows, row, le)) == multiset(rows) + multiset{row}
  {
    if |rows| > 0 && le(rows[0], row) {
      InsertedPermutes(rows[1..], row, le);
      var rest := Inserted(rows[1..], row, le);
      assert Inserted(rows, row, le) == [rows[0]] + rest;
      assert multiset([rows[0]] + rest) == multiset{rows[0]} + multiset(rest);
      assert rows == [rows[0]] + rows[1..];
    }
  }

  lemma {:induction false} SortPermutes<T>(rows: seq<T>, le: (T, T) -> bool)
    ensures multiset(SortedRows(rows, le)) == multiset(rows)
  {
    if |rows| > 0 {
      SortPermutes(rows[..|rows| - 1], le);
      InsertedPermutes(SortedRows(rows[..|rows| - 1], le), rows[|rows| - 1], le);
      assert rows == rows[..|rows| - 1] + [rows[|rows| - 1]];
    }
  }

  lemma {:induction false} InsertedSorted<T(!new)>(rows: seq<T>, row: T, le: (T, T) -> bool)
    requires TotalOrder(le) && IsSorted(rows, le)
    ensures IsSorted(Inserted(rows, row, le), le)
  {
    if |rows| > 0 && le(rows[0], row) {
      InsertedSorted(rows[1..], row, le);
      var rest := Inserted(rows[1..], row, le);
      InsertedPermutes(rows[1..], row, le);
      forall x | x in rest ensures le(rows[0], x) {
        assert x in multiset(rest);
        assert x in rows[1..] || x == row;
      }
    }
  }

  lemma {:induction false} SortSorts<T(!new)>(rows: seq<T>, le: (T, T) -> bool)
    requires TotalOrder(le)
    ensures IsSorted(SortedRows(rows, le), le)
  {
    if |rows| > 0 {
      SortSorts(rows[..|rows| - 1], le);
      InsertedSorted(SortedRows(rows[..|rows| - 1], le), rows[|rows| - 1], le);
    }
  }

  lemma SortKeepsMembers<T>(rows: seq<T>, le: (T, T) -> bool)
    ensures |SortedRows(rows, le)| == |rows|
    ensures forall x :: x in SortedRows(rows, le) <==> x in rows
  {
    SortPermutes(rows, le);
    assert |multiset(SortedRows(rows, le))| == |multiset(rows)|;
    forall x ensures x in SortedRows(rows, le) <==> x in rows {
      assert x in multiset(SortedRows(rows, le)) <==> x in multiset(rows);
    }
  }

  lemma SomeMember<T>(rows: seq<T>)
    ensures rows == [] || exists x :: x in rows
  {
    if rows != [] {
      assert rows[0] in rows;
    }
  }

  function Without<T>(rows: seq<T>, i: nat): seq<T>
    requires i < |rows|
  {
    rows[..i] + rows[i + 1..]
  }

  lemma WithoutOne<T>(rows: seq<T>, i: nat)
    requires i < |rows|
    ensures multiset(Without(rows, i)) == multiset(rows) - multiset{rows[i]}
  {
    assert rows == rows[..i] + [rows[i]] + rows[i + 1..];
  }

  /** Two rows of a permutation come from two places. */
  lemma TwoPlaces<T>(rows: seq<T>, order: seq<T>, i: nat, j: nat) returns (a: nat, b: nat)
    requires multiset(order) == multiset(rows) && i < j < |order|
    ensures a < |rows| && b < |rows| && a != b && rows[a] == order[i] && rows[b] == order[j]
  {
    assert order[i] in multiset(rows);
    a :| 0 <= a < |rows| && rows[a] == order[i];
    WithoutOne(rows, a);
    WithoutOne(order, i);
    var rest := Without(rows, a);
    assert order[j] == Without(order, i)[j - 1];
    assert order[j] in multiset(rest);
    var k :| 0 <= k < |rest| && rest[k] == order[j];
    b := if k < a then k else k + 1;
  }
}
