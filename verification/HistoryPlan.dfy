/** `buildWorktreeMergePlan`: what is inserted, skipped, cleared and renumbered.  The functions
say what is planned for one row; the methods run the planner's loops. */
module HistoryPlan {
  import opened FreeNumbers
  import opened HistoryTypes
  import opened ImportOrder
  import opened Revisions
  import opened Sets
  import opened Optional

  /** Whether comments are in scope, the projects asked for (a set, in its order), and the projects
      that others are mapped to. */
  datatype Options = Options(comments: bool, importProjectIds: seq<Id>, overrides: map<Id, Option<Id>>)

  datatype ProjectImport = ProjectImport(project: Project, workspaces: seq<Workspace>)

  /** `target` is the row to insert, but for its number. */
  datatype IssuePlan = SkipIssue(source: Issue) | InsertIssue(source: Issue, previewNumber: int, target: Issue)

  datatype CommentPlan = SkipComment(source: Comment, missingParent: bool) | InsertComment(source: Comment, authorAgentId: Option<Id>)

  datatype SkipReason = Existing | MissingParent | ConflictingKey

  datatype DocumentPlan =
    | SkipDocument(source: Document, reason: SkipReason)
    | PutDocument(
        source: Document,
        merge: bool,
        createdByAgentId: Option<Id>,
        updatedByAgentId: Option<Id>,
        latestRevisionId: Option<Id>,
        latestRevisionNumber: int,
        revisions: seq<PlannedRevision>)

  datatype AttachmentPlan =
    | SkipAttachment(source: Attachment, missingParent: bool)
    | InsertAttachment(source: Attachment, commentId: Option<Id>, createdByAgentId: Option<Id>)

  datatype Plan = Plan(
    projects: seq<ProjectImport>,
    issues: seq<IssuePlan>,
    comments: seq<CommentPlan>,
    documents: seq<DocumentPlan>,
    attachments: seq<AttachmentPlan>)

  /** A reference survives exactly if its row exists. */
  predicate KeptIfThere(reference: Option<Id>, source: Option<Id>, ids: set<Id>) {
    (reference.Some? <==> source.Some? && source.value in ids) && (reference.Some? ==> reference == source)
  }

  function Kept(reference: Option<Id>, ids: set<Id>): (r: Option<Id>)
    ensures KeptIfThere(r, reference, ids)
  {
    if reference.Some? && reference.value in ids then reference else None
  }

  // ----- projects -----

  function FindProject(rows: seq<Project>, id: Id): (r: Option<Project>)
    ensures r.Some? ==> r.value.id == id && r.value in rows
    ensures r == None ==> forall p :: p in rows ==> p.id != id
  {
    if |rows| == 0 then None
    else if rows[|rows| - 1].id == id then Some(rows[|rows| - 1])
    else FindProject(rows[..|rows| - 1], id)
  }

  function WorkspacesOf(rows: seq<Workspace>, projectId: Id): (r: seq<Workspace>)
    ensures forall w :: w in r <==> w in rows && w.projectId == projectId
  {
    if |rows| == 0 then []
    else WorkspacesOf(rows[..|rows| - 1], projectId) +
         if rows[|rows| - 1].projectId == projectId then [rows[|rows| - 1]] else []
  }

  predicate PrimaryFirst(left: Workspace, right: Workspace) {
    if left.isPrimary != right.isPrimary then left.isPrimary
    else if left.createdAt != right.createdAt then left.createdAt < right.createdAt
    else left.id <= right.id
  }

  function ImportOf(src: Source, db: Db, project: Project): ProjectImport {
    ProjectImport(
      project.(leadAgentId := Kept(project.leadAgentId, db.agents), goalId := Kept(project.goalId, db.goals)),
      SortedRows(WorkspacesOf(src.workspaces, project.id), PrimaryFirst))
  }

  predicate Imports(src: Source, db: Db, opts: Options, id: Id) {
    id in opts.importProjectIds && id !in db.projects && FindProject(src.projects, id).Some?
  }

  function ImportFor(src: Source, db: Db, opts: Options, id: Id): Option<ProjectImport> {
    if Imports(src, db, opts, id) then Some(ImportOf(src, db, FindProject(src.projects, id).value)) else None
  }

  ghost predicate ProjectsPlanned(src: Source, db: Db, opts: Options, plans: seq<ProjectImport>) {
    && (forall p :: p in plans ==> ImportFor(src, db, opts, p.project.id) == Some(p))
    && forall id :: Imports(src, db, opts, id) ==> ImportFor(src, db, opts, id).value in plans
  }

  method PlanProjects(src: Source, db: Db, opts: Options) returns (plans: seq<ProjectImport>)
    ensures ProjectsPlanned(src, db, opts, plans)
  {
    plans := [];
    for i := 0 to |opts.importProjectIds|
      invariant forall p :: p in plans ==> ImportFor(src, db, opts, p.project.id) == Some(p)
      invariant forall k :: 0 <= k < i && Imports(src, db, opts, opts.importProjectIds[k]) ==>
        ImportFor(src, db, opts, opts.importProjectIds[k]).value in plans
    {
      var id := opts.importProjectIds[i];
      if id !in db.projects {
        var project := FindProject(src.projects, id);
        if project.Some? {
          var imported := ImportOf(src, db, project.value);
          assert ImportFor(src, db, opts, imported.project.id) == Some(imported);
          plans := plans + [imported];
        }
      }
    }
  }

  /** Workspaces that come along with an imported project. */
  predicate ImportsWorkspace(src: Source, db: Db, opts: Options, id: Id) {
    exists w :: w in src.workspaces && w.id == id && Imports(src, db, opts, w.projectId)
  }

  // ----- issues -----

  function TargetProject(src: Source, db: Db, opts: Options, issue: Issue): Option<Id> {
    if issue.projectId == None then None
    else
      var id := issue.projectId.value;
      if id in db.projects then Some(id)
      else if id in opts.overrides && Kept(opts.overrides[id], db.projects.Keys).Some? then opts.overrides[id]
      else if Imports(src, db, opts, id) then Some(id)
      else None
  }

  function TargetWorkspace(src: Source, db: Db, opts: Options, issue: Issue): Option<Id> {
    var project := TargetProject(src, db, opts, issue);
    if && project.Some? && project == issue.projectId && issue.workspaceId.Some?
       && (issue.workspaceId.value in db.workspaces || ImportsWorkspace(src, db, opts, issue.workspaceId.value))
    then issue.workspaceId else None
  }

  function TargetRow(src: Source, db: Db, opts: Options, issue: Issue): Issue {
    var assignee := Kept(issue.assigneeAgentId, db.agents);
    issue.(
      projectId := TargetProject(src, db, opts, issue),
      workspaceId := TargetWorkspace(src, db, opts, issue),
      goalId := Kept(issue.goalId, db.goals),
      assigneeAgentId := assignee,
      createdByAgentId := Kept(issue.createdByAgentId, db.agents),
      status := if issue.status == InProgress && assignee == None && !issue.assignedToUser then Todo else issue.status)
  }

  /** The projects and workspaces there will be after the import. */
  function ProjectsThere(src: Source, db: Db, opts: Options): set<Id> {
    db.projects.Keys + set id | id in opts.importProjectIds && Imports(src, db, opts, id)
  }

  function WorkspacesThere(src: Source, db: Db, opts: Options): set<Id> {
    db.workspaces.Keys + set w | w in src.workspaces && Imports(src, db, opts, w.projectId) :: w.id
  }

  predicate IsMapped(db: Db, opts: Options, id: Id) {
    id in opts.overrides && opts.overrides[id].Some? && opts.overrides[id].value in db.projects
  }

  /** What becomes of an issue's project: kept if the target has it, else mapped as asked for, else
      kept if it will be there, else cleared. */
  predicate ProjectCarried(db: Db, opts: Options, projects: set<Id>, source: Option<Id>, project: Option<Id>) {
    && (source == None ==> project == None)
    && (source.Some? && source.value in db.projects ==> project == source)
    && (source.Some? && source.value !in db.projects && IsMapped(db, opts, source.value) ==> project == opts.overrides[source.value])
    && (source.Some? && source.value !in db.projects && !IsMapped(db, opts, source.value) ==> KeptIfThere(project, source, projects))
  }

  /** `row` is the issue with each reference as far as it can be kept, and in progress only if it has
      a holder; its number aside, nothing else changes. */
  predicate IssueCarried(db: Db, opts: Options, projects: set<Id>, workspaces: set<Id>, issue: Issue, row: Issue) {
    && row.id == issue.id && row.parentId == issue.parentId && row.content == issue.content
    && row.createdAt == issue.createdAt && row.assignedToUser == issue.assignedToUser
    && KeptIfThere(row.goalId, issue.goalId, db.goals)
    && KeptIfThere(row.assigneeAgentId, issue.assigneeAgentId, db.agents)
    && KeptIfThere(row.createdByAgentId, issue.createdByAgentId, db.agents)
    && ProjectCarried(db, opts, projects, issue.projectId, row.projectId)
    && KeptIfThere(row.workspaceId, if row.projectId.Some? && row.projectId == issue.projectId then issue.workspaceId else None, workspaces)
    && (row.status != issue.status <==> issue.status == InProgress && row.assigneeAgentId == None && !issue.assignedToUser)
    && (row.status != issue.status ==> row.status == Todo)
  }

  lemma TargetRowCarries(src: Source, db: Db, opts: Options, issue: Issue)
    ensures IssueCarried(db, opts, ProjectsThere(src, db, opts), WorkspacesThere(src, db, opts), issue, TargetRow(src, db, opts, issue))
  {
    hide Imports;
    forall id ensures ImportsWorkspace(src, db, opts, id) ==> id in WorkspacesThere(src, db, opts) {
    }
    forall id | Imports(src, db, opts, id) ensures id in opts.importProjectIds {
      ImportsAreRequested(src, db, opts, id);
    }
  }

  lemma ImportsAreRequested(src: Source, db: Db, opts: Options, id: Id)
    requires Imports(src, db, opts, id)
    ensures id in opts.importProjectIds
  {
  }

  /** How many of these issues are new to the target. */
  function NewCount(order: seq<Issue>, existing: set<Id>): nat {
    if |order| == 0 then 0
    else NewCount(order[..|order| - 1], existing) + if order[|order| - 1].id in existing then 0 else 1
  }

  function IssuePlanAt(src: Source, db: Db, opts: Options, order: seq<Issue>, i: nat): IssuePlan
    requires i < |order|
  {
    if order[i].id in db.issues then SkipIssue(order[i])
    else InsertIssue(order[i], db.issueCounter + NewCount(order[..i], db.issues.Keys) + 1, TargetRow(src, db, opts, order[i]))
  }

  ghost predicate IssuesPlanned(src: Source, db: Db, opts: Options, order: seq<Issue>, plans: seq<IssuePlan>) {
    |plans| == |order| && forall i :: 0 <= i < |order| ==> plans[i] == IssuePlanAt(src, db, opts, order, i)
  }

  method PlanIssues(src: Source, db: Db, opts: Options, order: seq<Issue>) returns (plans: seq<IssuePlan>)
    ensures IssuesPlanned(src, db, opts, order, plans)
    ensures |plans| == |order| && forall i :: 0 <= i < |order| ==> plans[i].source == order[i]
    ensures forall i :: 0 <= i < |order| ==> (plans[i].SkipIssue? <==> order[i].id in db.issues)
    ensures forall i :: 0 <= i < |order| && plans[i].InsertIssue? ==>
      IssueCarried(db, opts, ProjectsThere(src, db, opts), WorkspacesThere(src, db, opts), order[i], plans[i].target)
  {
    hide IssueCarried, ProjectsThere, WorkspacesThere, TargetRow;
    plans := [];
    var nextPreviewIssueNumber := db.issueCounter;
    for i := 0 to |order|
      invariant |plans| == i
      invariant nextPreviewIssueNumber == db.issueCounter + NewCount(order[..i], db.issues.Keys)
      invariant forall k :: 0 <= k < i ==> plans[k] == IssuePlanAt(src, db, opts, order, k)
    {
      assert order[..i + 1][..i] == order[..i];
      if order[i].id in db.issues {
        plans := plans + [SkipIssue(order[i])];
      } else {
        nextPreviewIssueNumber := nextPreviewIssueNumber + 1;
        plans := plans + [InsertIssue(order[i], nextPreviewIssueNumber, TargetRow(src, db, opts, order[i]))];
      }
    }
    PlannedIssuesCarry(src, db, opts, order, plans);
  }

  lemma PlannedIssuesCarry(src: Source, db: Db, opts: Options, order: seq<Issue>, plans: seq<IssuePlan>)
    requires IssuesPlanned(src, db, opts, order, plans)
    ensures forall i :: 0 <= i < |order| ==> plans[i].source == order[i] && (plans[i].SkipIssue? <==> order[i].id in db.issues)
    ensures forall i :: 0 <= i < |order| && plans[i].InsertIssue? ==>
      IssueCarried(db, opts, ProjectsThere(src, db, opts), WorkspacesThere(src, db, opts), order[i], plans[i].target)
  {
    hide IssueCarried, ProjectsThere, WorkspacesThere, TargetRow;
    forall i | 0 <= i < |order| && plans[i].InsertIssue?
      ensures IssueCarried(db, opts, ProjectsThere(src, db, opts), WorkspacesThere(src, db, opts), order[i], plans[i].target)
    {
      TargetRowCarries(src, db, opts, order[i]);
    }
  }

  function IssueIds(rows: seq<Issue>): set<Id> {
    set issue | issue in rows :: issue.id
  }

  /** The issues there will be after the import. */
  function Available(src: Source, db: Db): set<Id> {
    db.issues.Keys + IssueIds(src.issues)
  }

  // ----- comments -----

  function CommentPlanFor(src: Source, db: Db, comment: Comment): (r: CommentPlan)
    ensures r.source == comment
    ensures r.InsertComment? <==> comment.id !in db.comments && comment.issueId in Available(src, db)
    ensures r.SkipComment? ==> (r.missingParent <==> comment.id !in db.comments)
  {
    if comment.id in db.comments then SkipComment(comment, false)
    else if comment.issueId !in Available(src, db) then SkipComment(comment, true)
    else InsertComment(comment, Kept(comment.authorAgentId, db.agents))
  }

  predicate EarlierComment(left: Comment, right: Comment) {
    if left.createdAt != right.createdAt then left.createdAt < right.createdAt else left.id <= right.id
  }

  function SortedComments(src: Source): (r: seq<Comment>)
    ensures |r| == |src.comments| && forall c :: c in r <==> c in src.comments
  {
    SortKeepsMembers(src.comments, EarlierComment);
    SortedRows(src.comments, EarlierComment)
  }

  ghost predicate CommentsPlanned(src: Source, db: Db, opts: Options, plans: seq<CommentPlan>) {
    if opts.comments then
      |plans| == |src.comments| && forall i :: 0 <= i < |plans| ==> plans[i] == CommentPlanFor(src, db, SortedComments(src)[i])
    else plans == []
  }

  method PlanComments(src: Source, db: Db, opts: Options) returns (plans: seq<CommentPlan>)
    ensures CommentsPlanned(src, db, opts, plans)
  {
    hide CommentPlanFor, SortedComments;
    plans := [];
    if !opts.comments { return; }
    var sorted := SortedComments(src);
    for i := 0 to |sorted|
      invariant |plans| == i && forall k :: 0 <= k < i ==> plans[k] == CommentPlanFor(src, db, sorted[k])
    {
      plans := plans + [CommentPlanFor(src, db, sorted[i])];
    }
  }

  lemma CommentPlansAre(src: Source, db: Db, opts: Options, plans: seq<CommentPlan>)
    requires CommentsPlanned(src, db, opts, plans)
    ensures forall p :: p in plans ==> opts.comments && p.source in src.comments && p == CommentPlanFor(src, db, p.source)
    ensures opts.comments ==> forall c :: c in src.comments ==> CommentPlanFor(src, db, c) in plans
  {
    hide CommentPlanFor, SortedComments;
    forall p | p in plans ensures opts.comments && p.source in src.comments && p == CommentPlanFor(src, db, p.source) {
      var i :| 0 <= i < |plans| && plans[i] == p;
      assert SortedComments(src)[i] in SortedComments(src);
    }
    if opts.comments {
      forall c | c in src.comments ensures CommentPlanFor(src, db, c) in plans {
        assert c in SortedComments(src);
        var i :| 0 <= i < |src.comments| && SortedComments(src)[i] == c;
        assert plans[i] == CommentPlanFor(src, db, c);
      }
    }
  }

  /** The comments there will be after the import. */
  predicate CommentAvailable(src: Source, db: Db, opts: Options, id: Id) {
    id in db.comments || (opts.comments && exists c :: c in src.comments && c.id == id && CommentPlanFor(src, db, c).InsertComment?)
  }

  // ----- documents -----

  function RevisionsOf(rows: seq<Revision>, documentId: Id): (r: seq<Revision>)
    ensures forall x :: x in r <==> x in rows && x.documentId == documentId
  {
    if |rows| == 0 then []
    else
      assert rows == rows[..|rows| - 1] + [rows[|rows| - 1]];
      RevisionsOf(rows[..|rows| - 1], documentId) +
      if rows[|rows| - 1].documentId == documentId then [rows[|rows| - 1]] else []
  }

  predicate LowerRevision(left: Revision, right: Revision) {
    if left.number != right.number then left.number < right.number
    else if left.createdAt != right.createdAt then left.createdAt < right.createdAt
    else left.id <= right.id
  }

  function TargetRevisions(db: Db, documentId: Id): set<Id> {
    set id | id in db.revisions && db.revisions[id].documentId == documentId
  }

  function TargetNumbers(db: Db, documentId: Id): map<Id, int> {
    map id | id in TargetRevisions(db, documentId) :: db.revisions[id].number
  }

  function UsedNumbers(db: Db, documentId: Id): set<int> {
    set id | id in TargetRevisions(db, documentId) :: db.revisions[id].number
  }

  lemma {:induction false} MaxExists(s: set<int>)
    requires s != {}
    ensures exists m :: m in s && forall k :: k in s ==> k <= m
    decreases s
  {
    var x := Member(s);
    if s != {x} {
      var rest := s - {x};
      MaxExists(rest);
      var m: int :| m in rest && forall k :: k in rest ==> k <= m;
      var top := if x > m then x else m;
      assert top in s;
      forall k | k in s ensures k <= top {
        assert k == x || k in rest;
      }
    } else {
      assert x in s && forall k :: k in s ==> k <= x;
    }
  }

  function MaxOf(s: set<int>): (m: int)
    requires s != {}
    ensures m in s && forall k :: k in s ==> k <= m
  {
    MaxExists(s);
    var m :| m in s && forall k :: k in s ==> k <= m;
    m
  }

  /** The source's revisions of a document that the target does not have, lowest first. */
  function NewRevisions(src: Source, db: Db, documentId: Id): seq<Revision> {
    Fresh(SortedRows(RevisionsOf(src.revisions, documentId), LowerRevision), TargetRevisions(db, documentId))
  }

  function NewNumbers(src: Source, db: Db, documentId: Id): seq<int> {
    var used := UsedNumbers(db, documentId);
    Renumbered(NumbersOf(NewRevisions(src, db, documentId)), used, MaxOf(used + {0}) + 1)
  }

  function NumberMap(rows: seq<Revision>, numbers: seq<int>): map<Id, int>
    requires |rows| == |numbers|
  {
    if |rows| == 0 then map[]
    else NumberMap(rows[..|rows| - 1], numbers[..|rows| - 1])[rows[|rows| - 1].id := numbers[|rows| - 1]]
  }

  function PlannedRevisions(db: Db, rows: seq<Revision>, numbers: seq<int>): seq<PlannedRevision>
    requires |rows| == |numbers|
  {
    seq(|rows|, i requires 0 <= i < |rows| => PlannedRevision(rows[i], numbers[i], Kept(rows[i].createdByAgentId, db.agents)))
  }

  predicate KeyTaken(db: Db, doc: Document) {
    exists id :: id in db.documents && db.documents[id].issueId == doc.issueId && db.documents[id].key == doc.key && id != doc.id
  }

  function LatestId(db: Db, doc: Document): Option<Id> {
    if doc.latestRevisionId.Some? then doc.latestRevisionId
    else if doc.id in db.documents then db.documents[doc.id].latestRevisionId
    else None
  }

  function LatestNumber(db: Db, doc: Document, rows: seq<Revision>, numbers: seq<int>): int
    requires |rows| == |numbers|
  {
    var byId := TargetNumbers(db, doc.id) + NumberMap(rows, numbers);
    var latest := LatestId(db, doc);
    if latest.Some? && latest.value in byId then byId[latest.value] else doc.latestRevisionNumber
  }

  predicate AlreadyMatches(existing: Document, doc: Document, latest: Option<Id>, number: int, updatedBy: Option<Id>) {
    && existing.key == doc.key
    && existing.content == doc.content
    && existing.latestRevisionId == latest
    && existing.latestRevisionNumber == number
    && existing.updatedByAgentId == updatedBy
    && existing.updatedByUser == doc.updatedByUser
    && existing.updatedAt == doc.updatedAt
    && existing.linkUpdatedAt == doc.linkUpdatedAt
  }

  function PlanWith(db: Db, doc: Document, rows: seq<Revision>, numbers: seq<int>): DocumentPlan
    requires |rows| == |numbers|
  {
    var updatedBy := Kept(doc.updatedByAgentId, db.agents);
    var number := LatestNumber(db, doc, rows, numbers);
    if doc.id in db.documents && AlreadyMatches(db.documents[doc.id], doc, LatestId(db, doc), number, updatedBy) && |rows| == 0
    then SkipDocument(doc, Existing)
    else PutDocument(doc, doc.id in db.documents, Kept(doc.createdByAgentId, db.agents), updatedBy,
                     LatestId(db, doc), number, PlannedRevisions(db, rows, numbers))
  }

  lemma NewNumbersCount(src: Source, db: Db, documentId: Id)
    ensures |NewNumbers(src, db, documentId)| == |NewRevisions(src, db, documentId)|
  {
    var used := UsedNumbers(db, documentId);
    NumbersDistinct(NumbersOf(NewRevisions(src, db, documentId)), used, MaxOf(used + {0}) + 1);
  }

  function DocumentPlanFor(src: Source, db: Db, doc: Document): (r: DocumentPlan)
    ensures r.source == doc && (r.PutDocument? ==> (r.merge <==> doc.id in db.documents))
    ensures doc.issueId !in Available(src, db) <==> r.SkipDocument? && r.reason == MissingParent
    ensures r.SkipDocument? && r.reason == ConflictingKey ==> doc.id !in db.documents && KeyTaken(db, doc)
    ensures r.SkipDocument? && r.reason == Existing ==> doc.id in db.documents
  {
    if doc.issueId !in Available(src, db) then SkipDocument(doc, MissingParent)
    else if doc.id !in db.documents && KeyTaken(db, doc) then SkipDocument(doc, ConflictingKey)
    else
      NewNumbersCount(src, db, doc.id);
      PlanWith(db, doc, NewRevisions(src, db, doc.id), NewNumbers(src, db, doc.id))
  }

  lemma RenumberStep(whole: seq<int>, numbers: seq<int>, all: seq<int>, k: nat, used: set<int>, next: int)
    requires k <= |all| && whole == numbers + Renumbered(all[k..], used, next)
    ensures k == |all| ==> whole == numbers
    ensures k < |all| && all[k] !in used ==> whole == numbers + [all[k]] + Renumbered(all[k + 1..], used + {all[k]}, next)
    ensures k < |all| && all[k] in used ==>
      var n := FirstFree(used, next);
      whole == numbers + [n] + Renumbered(all[k + 1..], used + {n}, n + 1)
  {
    hide FirstFree, AtLeast;
    if k < |all| {
      assert all[k..][1..] == all[k + 1..];
    }
  }

  /** The planner's loop over one document's source revisions. */
  method RenumberLoop(rows: seq<Revision>, existing: set<Id>, targetNumbers: set<int>)
    returns (novel: seq<Revision>, numbers: seq<int>)
    ensures novel == Fresh(rows, existing)
    ensures numbers == Renumbered(NumbersOf(novel), targetNumbers, MaxOf(targetNumbers + {0}) + 1)
  {
    hide Fresh, Renumbered, FirstFree, AtLeast;
    ghost var all := NumbersOf(Fresh(rows, existing));
    var used := targetNumbers;
    var next := MaxOf(targetNumbers + {0}) + 1;
    ghost var whole := Renumbered(all, used, next);
    novel, numbers := [], [];
    assert all[0..] == all;
    FreshGrows(rows, existing, 0);
    for i := 0 to |rows|
      invariant novel == Fresh(rows[..i], existing) && |numbers| == |novel| <= |all|
      invariant whole == numbers + Renumbered(all[|novel|..], used, next)
    {
      FreshGrows(rows, existing, i);
      FreshGrows(rows, existing, i + 1);
      if rows[i].id !in existing {
        assert all[|novel|] == rows[i].number;
        RenumberStep(whole, numbers, all, |novel|, used, next);
        var number := rows[i].number;
        if number in used {
          next := SkipUsed(used, next);
          number := next;
          next := next + 1;
        }
        used := used + {number};
        novel := novel + [rows[i]];
        numbers := numbers + [number];
      }
    }
    assert rows[..|rows|] == rows;
    RenumberStep(whole, numbers, all, |novel|, used, next);
  }

  method SkipUsed(used: set<int>, from: int) returns (next: int)
    ensures next == FirstFree(used, from)
  {
    next := from;
    while next in used
      invariant FirstFree(used, next) == FirstFree(used, from)
      decreases AtLeast(used, next)
    {
      assert next in AtLeast(used, next) && next !in AtLeast(used, next + 1);
      next := next + 1;
    }
  }

  lemma {:induction false} FreshGrows(rows: seq<Revision>, existing: set<Id>, i: nat)
    requires i <= |rows|
    ensures i == 0 ==> Fresh(rows[..i], existing) == []
    ensures Fresh(rows[..i], existing) <= Fresh(rows, existing)
    ensures i < |rows| ==>
      Fresh(rows[..i + 1], existing) == Fresh(rows[..i], existing) + if rows[i].id in existing then [] else [rows[i]]
  {
    assert i < |rows| ==> rows[..i + 1][..i] == rows[..i];
    if i == |rows| {
      assert rows[..i] == rows;
    } else {
      var before := rows[..|rows| - 1];
      FreshGrows(before, existing, i);
      assert before[..i] == rows[..i];
    }
  }

  predicate EarlierDocument(left: Document, right: Document) {
    if left.createdAt != right.createdAt then left.createdAt < right.createdAt
    else if left.linkCreatedAt != right.linkCreatedAt then left.linkCreatedAt < right.linkCreatedAt
    else left.id <= right.id
  }

  ghost predicate DocumentsPlanned(src: Source, db: Db, plans: seq<DocumentPlan>) {
    |plans| == |src.documents| && forall i :: 0 <= i < |plans| ==> plans[i] == DocumentPlanFor(src, db, SortedDocuments(src)[i])
  }

  method PlanDocuments(src: Source, db: Db) returns (plans: seq<DocumentPlan>)
    ensures DocumentsPlanned(src, db, plans)
  {
    hide SortedRows, Inserted, Renumbered, FirstFree, Fresh, RevisionsOf, TargetRevisions, UsedNumbers, PlanWith, KeyTaken;
    var sorted := SortedDocuments(src);
    plans := [];
    for i := 0 to |sorted|
      invariant |plans| == i
      invariant forall k :: 0 <= k < i ==> plans[k] == DocumentPlanFor(src, db, sorted[k])
    {
      var doc := sorted[i];
      if doc.issueId !in Available(src, db) {
        plans := plans + [SkipDocument(doc, MissingParent)];
      } else if doc.id !in db.documents && KeyTaken(db, doc) {
        plans := plans + [SkipDocument(doc, ConflictingKey)];
      } else {
        var novel, numbers := RenumberLoop(
          SortedRows(RevisionsOf(src.revisions, doc.id), LowerRevision), TargetRevisions(db, doc.id), UsedNumbers(db, doc.id));
        NewNumbersCount(src, db, doc.id);
        plans := plans + [PlanWith(db, doc, novel, numbers)];
      }
    }
  }

  function SortedDocuments(src: Source): (r: seq<Document>)
    ensures |r| == |src.documents|
  {
    SortKeepsMembers(src.documents, EarlierDocument);
    SortedRows(src.documents, EarlierDocument)
  }

  // ----- attachments -----

  function AttachmentPlanFor(src: Source, db: Db, opts: Options, a: Attachment): (r: AttachmentPlan)
    ensures r.source == a
    ensures r.InsertAttachment? <==> a.id !in db.attachments && a.issueId in Available(src, db)
    ensures r.SkipAttachment? ==> (r.missingParent <==> a.id !in db.attachments)
  {
    if a.id in db.attachments then SkipAttachment(a, false)
    else if a.issueId !in Available(src, db) then SkipAttachment(a, true)
    else InsertAttachment(
      a,
      if a.commentId.Some? && CommentAvailable(src, db, opts, a.commentId.value) then a.commentId else None,
      Kept(a.createdByAgentId, db.agents))
  }

  predicate EarlierAttachment(left: Attachment, right: Attachment) {
    if left.createdAt != right.createdAt then left.createdAt < right.createdAt else left.id <= right.id
  }

  function SortedAttachments(src: Source): (r: seq<Attachment>)
    ensures |r| == |src.attachments| && forall a :: a in r <==> a in src.attachments
  {
    SortKeepsMembers(src.attachments, EarlierAttachment);
    SortedRows(src.attachments, EarlierAttachment)
  }

  ghost predicate AttachmentsPlanned(src: Source, db: Db, opts: Options, plans: seq<AttachmentPlan>) {
    |plans| == |src.attachments|
    && forall i :: 0 <= i < |plans| ==> plans[i] == AttachmentPlanFor(src, db, opts, SortedAttachments(src)[i])
  }

  method PlanAttachments(src: Source, db: Db, opts: Options) returns (plans: seq<AttachmentPlan>)
    ensures AttachmentsPlanned(src, db, opts, plans)
  {
    hide AttachmentPlanFor, SortedAttachments;
    plans := [];
    var sorted := SortedAttachments(src);
    for i := 0 to |sorted|
      invariant |plans| == i && forall k :: 0 <= k < i ==> plans[k] == AttachmentPlanFor(src, db, opts, sorted[k])
    {
      plans := plans + [AttachmentPlanFor(src, db, opts, sorted[i])];
    }
  }

  lemma AttachmentPlansAre(src: Source, db: Db, opts: Options, plans: seq<AttachmentPlan>)
    requires AttachmentsPlanned(src, db, opts, plans)
    ensures forall p :: p in plans ==> p.source in src.attachments && p == AttachmentPlanFor(src, db, opts, p.source)
    ensures forall a :: a in src.attachments ==> AttachmentPlanFor(src, db, opts, a) in plans
  {
    hide AttachmentPlanFor, SortedAttachments;
    forall p | p in plans ensures p.source in src.attachments && p == AttachmentPlanFor(src, db, opts, p.source) {
      var i :| 0 <= i < |plans| && plans[i] == p;
      assert SortedAttachments(src)[i] in SortedAttachments(src);
    }
    forall a | a in src.attachments ensures AttachmentPlanFor(src, db, opts, a) in plans {
      assert a in SortedAttachments(src);
      var i :| 0 <= i < |src.attachments| && SortedAttachments(src)[i] == a;
      assert plans[i] == AttachmentPlanFor(src, db, opts, a);
    }
  }

  // ----- order -----

  lemma PrimaryFirstIsOrder()
    ensures TotalOrder(PrimaryFirst) && TotalOrder(EarlierComment) && TotalOrder(EarlierDocument) && TotalOrder(EarlierAttachment)
  {
  }

  /** Created earlier, or at the same time with a smaller id. */
  predicate IsOlder(time: int, id: Id, otherTime: int, otherId: Id) {
    time <= otherTime && (time == otherTime ==> id <= otherId)
  }

  /** A project's primary workspaces come before its others, older ones first. */
  lemma PrimaryComesFirst(src: Source, db: Db, project: Project, i: nat, j: nat)
    requires i < j < |ImportOf(src, db, project).workspaces|
    ensures var rows := ImportOf(src, db, project).workspaces;
      && (rows[j].isPrimary ==> rows[i].isPrimary)
      && (rows[i].isPrimary == rows[j].isPrimary ==> IsOlder(rows[i].createdAt, rows[i].id, rows[j].createdAt, rows[j].id))
  {
    PrimaryFirstIsOrder();
    SortSorts(WorkspacesOf(src.workspaces, project.id), PrimaryFirst);
    assert PrimaryFirst(ImportOf(src, db, project).workspaces[i], ImportOf(src, db, project).workspaces[j]);
  }

  /** Comments, documents and attachments are planned in the order of their creation. */
  lemma PlannedByCreation(src: Source, db: Db, opts: Options, order: seq<Issue>, plan: Plan, i: nat, j: nat)
    requires IsPlan(src, db, opts, order, plan) && i < j
    ensures j < |plan.comments| ==>
      var a, b := plan.comments[i].source, plan.comments[j].source; IsOlder(a.createdAt, a.id, b.createdAt, b.id)
    ensures j < |plan.documents| ==>
      var a, b := plan.documents[i].source, plan.documents[j].source;
      a.createdAt <= b.createdAt && (a.createdAt == b.createdAt ==> IsOlder(a.linkCreatedAt, a.id, b.linkCreatedAt, b.id))
    ensures j < |plan.attachments| ==>
      var a, b := plan.attachments[i].source, plan.attachments[j].source; IsOlder(a.createdAt, a.id, b.createdAt, b.id)
  {
    hide Inserted, SortedRows, CommentPlanFor, AttachmentPlanFor, DocumentPlanFor, IssuesPlanned, ProjectsPlanned, IsImportOrder;
    PrimaryFirstIsOrder();
    SortSorts(src.comments, EarlierComment);
    SortSorts(src.documents, EarlierDocument);
    SortSorts(src.attachments, EarlierAttachment);
    assert j < |plan.comments| ==> EarlierComment(SortedComments(src)[i], SortedComments(src)[j]);
    assert j < |plan.documents| ==> EarlierDocument(SortedDocuments(src)[i], SortedDocuments(src)[j]);
    assert j < |plan.attachments| ==> EarlierAttachment(SortedAttachments(src)[i], SortedAttachments(src)[j]);
  }

  // ----- the whole plan -----

  ghost predicate IsImportOrder(src: Source, order: seq<Issue>) {
    && multiset(order) == multiset(src.issues)
    && (Acyclic(ById(src.issues)) ==> exists d :: IsDepthMap(ById(src.issues), d) && InImportOrder(d, order))
  }

  ghost predicate IsPlan(src: Source, db: Db, opts: Options, order: seq<Issue>, plan: Plan) {
    && IsImportOrder(src, order)
    && ProjectsPlanned(src, db, opts, plan.projects)
    && IssuesPlanned(src, db, opts, order, plan.issues)
    && CommentsPlanned(src, db, opts, plan.comments)
    && DocumentsPlanned(src, db, plan.documents)
    && AttachmentsPlanned(src, db, opts, plan.attachments)
  }

  method OrderIssues(src: Source) returns (order: seq<Issue>)
    requires UniqueIssueIds(src.issues)
    ensures IsImportOrder(src, order)
  {
    ghost var d: map<Id, nat> := map[];
    if Acyclic(ById(src.issues)) {
      d := CompleteDepths(ById(src.issues), map[]);
    }
    order := SortIssuesForImport(src.issues, d);
  }

  method BuildPlan(src: Source, db: Db, opts: Options) returns (plan: Plan, ghost order: seq<Issue>)
    requires UniqueIssueIds(src.issues)
    ensures IsPlan(src, db, opts, order, plan)
  {
    hide ProjectsPlanned, IssuesPlanned, CommentsPlanned, DocumentsPlanned, AttachmentsPlanned, IsImportOrder;
    var projects := PlanProjects(src, db, opts);
    var sorted := OrderIssues(src);
    order := sorted;
    var issues := PlanIssues(src, db, opts, sorted);
    var comments := PlanComments(src, db, opts);
    var documents := PlanDocuments(src, db);
    var attachments := PlanAttachments(src, db, opts);
    plan := Plan(projects, issues, comments, documents, attachments);
  }
}
