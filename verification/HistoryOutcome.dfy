/** What each part of the transaction leaves in the tables it writes. */
module HistoryOutcome {
  import opened HistoryTypes
  import opened ImportOrder
  import opened Revisions
  import opened HistoryPlan
  import opened HistoryApply

  // ----- projects and workspaces -----

  lemma {:induction false} WorkspacesOutcome(db: Db, rows: seq<Workspace>, existing: set<Id>)
    ensures var now := WorkspacesApplied(db, rows, existing);
      && now == db.(workspaces := now.workspaces) && db.workspaces.Keys <= now.workspaces.Keys
      && forall w :: w in rows && w.id !in existing ==> w.id in now.workspaces
  {
    hide Written;
    if |rows| > 0 {
      var front := rows[..|rows| - 1];
      WorkspacesOutcome(db, front, existing);
      OneWorkspace(WorkspacesApplied(db, front, existing), rows[|rows| - 1]);
      assert rows == front + [rows[|rows| - 1]];
    }
  }

  lemma OneWorkspace(db: Db, row: Workspace)
    ensures Written(db, PutWorkspace(row)) == db.(workspaces := db.workspaces[row.id := row])
  {
  }

  lemma {:induction false} ProjectsOutcome(db: Db, plans: seq<ProjectImport>, projects: set<Id>, workspaces: set<Id>)
    ensures var now := ProjectsApplied(db, plans, projects, workspaces);
      && now == db.(projects := now.projects, workspaces := now.workspaces)
      && db.projects.Keys <= now.projects.Keys && db.workspaces.Keys <= now.workspaces.Keys
      && forall p :: p in plans && p.project.id !in projects ==>
        p.project.id in now.projects && forall w :: w in p.workspaces && w.id !in workspaces ==> w.id in now.workspaces
  {
    if |plans| > 0 {
      var front, p := plans[..|plans| - 1], plans[|plans| - 1];
      ProjectsOutcome(db, front, projects, workspaces);
      var before := ProjectsApplied(db, front, projects, workspaces);
      WorkspacesOutcome(Written(before, PutProject(p.project)), p.workspaces, workspaces);
      assert plans == front + [p];
    }
  }

  // ----- issues -----

  ghost predicate DistinctInserts(inserts: seq<IssuePlan>) {
    forall i, j :: 0 <= i < j < |inserts| ==> inserts[i].source.id != inserts[j].source.id
  }

  lemma {:induction false} IssuesOutcome(db: Db, inserts: seq<IssuePlan>, first: int)
    requires forall p :: p in inserts ==> p.InsertIssue?
    ensures var now := IssuesApplied(db, inserts, first);
      && now == db.(issues := now.issues)
      && now.issues.Keys == db.issues.Keys + InsertedIds(inserts)
      && (forall id :: id in db.issues && id !in InsertedIds(inserts) ==> now.issues[id] == db.issues[id])
  {
    hide Written, InsertedIds;
    if |inserts| > 0 {
      var n := |inserts| - 1;
      IssuesOutcome(db, inserts[..n], first);
      InsertedIdsGrow(inserts, n);
      OneIssue(IssuesApplied(db, inserts[..n], first), NumberedRow(inserts[n], first + n));
      assert inserts[..n + 1] == inserts;
    } else {
      NoneInserted();
    }
  }

  lemma OneIssue(db: Db, row: Issue)
    ensures Written(db, PutIssue(row)) == db.(issues := db.issues[row.id := row])
  {
  }

  lemma NoneInserted()
    ensures InsertedIds([]) == {}
  {
  }

  lemma {:induction false} IssueRow(db: Db, inserts: seq<IssuePlan>, first: int, m: nat)
    requires (forall p :: p in inserts ==> p.InsertIssue?) && DistinctInserts(inserts) && m < |inserts|
    ensures var now := IssuesApplied(db, inserts, first);
      inserts[m].source.id in now.issues && now.issues[inserts[m].source.id] == NumberedRow(inserts[m], first + m)
  {
    if m < |inserts| - 1 {
      IssueRow(db, inserts[..|inserts| - 1], first, m);
    }
  }

  lemma InsertsGrow(plans: seq<IssuePlan>, existing: set<Id>)
    requires |plans| > 0
    ensures var before, all := NewInserts(plans[..|plans| - 1], existing), NewInserts(plans, existing);
      && (all == before || all == before + [plans[|plans| - 1]])
      && forall m :: 0 <= m <= |before| ==> all[..m] == before[..m]
  {
  }

  /** Where an insert comes from in the plan. */
  lemma {:induction false} InsertOrigin(plans: seq<IssuePlan>, existing: set<Id>, m: nat) returns (k: nat)
    requires m < |NewInserts(plans, existing)|
    ensures k < |plans| && plans[k] == NewInserts(plans, existing)[m]
    ensures NewInserts(plans[..k], existing) == NewInserts(plans, existing)[..m]
  {
    assert |plans| > 0;
    hide NewInserts;
    InsertsGrow(plans, existing);
    var front := plans[..|plans| - 1];
    var all, before := NewInserts(plans, existing), NewInserts(front, existing);
    assert all[..m] == before[..m];
    if m < |before| {
      k := InsertOrigin(front, existing, m);
      assert front[..k] == plans[..k];
    } else {
      k := |plans| - 1;
    }
  }

  lemma IssuesCounted(src: Source, db: Db, opts: Options, order: seq<Issue>, plans: seq<IssuePlan>)
    requires IssuesPlanned(src, db, opts, order, plans)
    ensures |plans| == |order|
  {
  }

  lemma PlannedAction(src: Source, db: Db, opts: Options, order: seq<Issue>, plans: seq<IssuePlan>, k: nat)
    requires IssuesPlanned(src, db, opts, order, plans) && k < |plans| == |order|
    ensures plans[k].source == order[k] && (plans[k].InsertIssue? <==> order[k].id !in db.issues)
    ensures plans[k].InsertIssue? ==> plans[k].previewNumber == db.issueCounter + NewCount(order[..k], db.issues.Keys) + 1
  {
    assert plans[k] == IssuePlanAt(src, db, opts, order, k);
  }

  lemma {:induction false} InsertCount(src: Source, db: Db, opts: Options, order: seq<Issue>, plans: seq<IssuePlan>, k: nat)
    requires IssuesPlanned(src, db, opts, order, plans) && k <= |plans| == |order|
    ensures |NewInserts(plans[..k], db.issues.Keys)| == NewCount(order[..k], db.issues.Keys)
  {
    hide IssuesPlanned;
    if k > 0 {
      InsertCount(src, db, opts, order, plans, k - 1);
      assert plans[..k][..k - 1] == plans[..k - 1] && order[..k][..k - 1] == order[..k - 1];
      PlannedAction(src, db, opts, order, plans, k - 1);
    }
  }

  /** Import order only permutes the source issues. */
  lemma OrderIsUnique(src: Source, order: seq<Issue>)
    requires UniqueIssueIds(src.issues) && multiset(order) == multiset(src.issues)
    ensures UniqueIssueIds(order) && IssueIds(order) == IssueIds(src.issues)
  {
    forall issue ensures issue in order <==> issue in src.issues {
      assert issue in order <==> issue in multiset(order);
      assert issue in src.issues <==> issue in multiset(src.issues);
    }
    forall i, j | 0 <= i < j < |order| ensures order[i].id != order[j].id {
      var a, b := TwoPlaces(src.issues, order, i, j);
    }
  }

  /** The inserts in the order they are numbered: new ids, each once, previewed one after another. */
  lemma InsertsPlanned(src: Source, db: Db, opts: Options, order: seq<Issue>, plans: seq<IssuePlan>)
    requires UniqueIssueIds(src.issues) && multiset(order) == multiset(src.issues) && IssuesPlanned(src, db, opts, order, plans)
    ensures var inserts := NewInserts(plans, db.issues.Keys);
      && DistinctInserts(inserts)
      && (forall m :: 0 <= m < |inserts| ==> inserts[m].previewNumber == db.issueCounter + 1 + m)
      && db.issues.Keys + InsertedIds(inserts) == Available(src, db)
      && InsertedIds(inserts) !! db.issues.Keys
  {
    hide IssuesPlanned;
    IssuesCounted(src, db, opts, order, plans);
    var inserts := NewInserts(plans, db.issues.Keys);
    OrderIsUnique(src, order);
    forall m | 0 <= m < |inserts| ensures inserts[m].previewNumber == db.issueCounter + 1 + m {
      var k := InsertOrigin(plans, db.issues.Keys, m);
      InsertCount(src, db, opts, order, plans, k);
      PlannedAction(src, db, opts, order, plans, k);
    }
    forall i, j | 0 <= i < j < |inserts| ensures inserts[i].source.id != inserts[j].source.id {
      var b := InsertOrigin(plans, db.issues.Keys, j);
      assert inserts[i] == inserts[..j][i];
      var a := InsertOrigin(plans[..b], db.issues.Keys, i);
      PlannedAction(src, db, opts, order, plans, a);
      PlannedAction(src, db, opts, order, plans, b);
      assert order[a].id != order[b].id;
    }
    forall id ensures id in db.issues.Keys + InsertedIds(inserts) <==> id in Available(src, db) {
      if id in IssueIds(order) && id !in db.issues {
        var issue :| issue in order && issue.id == id;
        var k :| 0 <= k < |order| && order[k] == issue;
        PlannedAction(src, db, opts, order, plans, k);
        assert plans[k] in inserts;
      }
      if id in InsertedIds(inserts) {
        var p :| p in inserts && p.source.id == id;
        var k :| 0 <= k < |plans| && plans[k] == p;
        PlannedAction(src, db, opts, order, plans, k);
        assert order[k] in order;
      }
    }
  }

  // ----- comments -----

  lemma {:induction false} CommentsOutcome(db: Db, plans: seq<CommentPlan>, existing: set<Id>)
    ensures var now := CommentsApplied(db, plans, existing);
      && now == db.(comments := now.comments) && db.comments.Keys <= now.comments.Keys
      && forall p :: p in plans && p.InsertComment? && p.source.id !in existing && p.source.issueId in db.issues ==>
        p.source.id in now.comments
  {
    hide CommentApplied;
    if |plans| > 0 {
      var front := plans[..|plans| - 1];
      CommentsOutcome(db, front, existing);
      OneComment(CommentsApplied(db, front, existing), plans[|plans| - 1], existing);
      assert plans == front + [plans[|plans| - 1]];
    }
  }

  lemma OneComment(db: Db, p: CommentPlan, existing: set<Id>)
    ensures var now := CommentApplied(db, p, existing);
      && now == db.(comments := now.comments) && db.comments.Keys <= now.comments.Keys
      && (p.InsertComment? && p.source.id !in existing && p.source.issueId in db.issues ==> p.source.id in now.comments)
  {
  }

  // ----- documents and their revisions -----

  function RevisionIds(planned: seq<PlannedRevision>): set<Id> {
    set r | r in planned :: r.source.id
  }

  ghost predicate DistinctRevisions(planned: seq<PlannedRevision>) {
    forall i, j :: 0 <= i < j < |planned| ==> planned[i].source.id != planned[j].source.id
  }

  lemma RevisionIdsGrow(planned: seq<PlannedRevision>)
    requires |planned| > 0
    ensures var front, r := planned[..|planned| - 1], planned[|planned| - 1];
      && RevisionIds(planned) == RevisionIds(front) + {r.source.id}
      && (DistinctRevisions(planned) ==> DistinctRevisions(front) && r.source.id !in RevisionIds(front))
  {
    assert planned == planned[..|planned| - 1] + [planned[|planned| - 1]];
  }

  lemma RowId(documentId: Id, r: PlannedRevision)
    ensures RevisionRow(documentId, r).id == r.source.id
  {
  }

  lemma {:induction false} RevisionsOutcome(db: Db, documentId: Id, planned: seq<PlannedRevision>, existing: set<Id>)
    requires DistinctRevisions(planned) && RevisionIds(planned) !! existing
    ensures var now := RevisionsApplied(db, documentId, planned, existing);
      && now == db.(revisions := now.revisions)
      && now.revisions.Keys == db.revisions.Keys + RevisionIds(planned)
      && (forall id :: id in db.revisions && id !in RevisionIds(planned) ==> now.revisions[id] == db.revisions[id])
  {
    if |planned| > 0 {
      RevisionIdsGrow(planned);
      hide RevisionIds, DistinctRevisions, RevisionRow;
      RevisionsOutcome(db, documentId, planned[..|planned| - 1], existing);
      RowId(documentId, planned[|planned| - 1]);
    }
  }

  lemma {:induction false} RevisionPlaced(db: Db, documentId: Id, planned: seq<PlannedRevision>, existing: set<Id>, i: nat)
    requires DistinctRevisions(planned) && RevisionIds(planned) !! existing && i < |planned|
    ensures var now := RevisionsApplied(db, documentId, planned, existing);
      planned[i].source.id in now.revisions && now.revisions[planned[i].source.id] == RevisionRow(documentId, planned[i])
  {
    assert planned[i].source.id in RevisionIds(planned);
    if i < |planned| - 1 {
      var front := planned[..|planned| - 1];
      assert RevisionIds(front) <= RevisionIds(planned);
      RevisionPlaced(db, documentId, front, existing, i);
    }
  }

  lemma {:induction false} RevisionsFrame(db: Db, documentId: Id, planned: seq<PlannedRevision>, existing: set<Id>)
    ensures var now := RevisionsApplied(db, documentId, planned, existing);
      now == db.(revisions := now.revisions)
  {
    if |planned| > 0 {
      RevisionsFrame(db, documentId, planned[..|planned| - 1], existing);
    }
  }

  lemma {:induction false} DocumentsFrame(db: Db, plans: seq<DocumentPlan>)
    ensures var now := DocumentsApplied(db, plans);
      now == db.(documents := now.documents, revisions := now.revisions)
  {
    hide DocumentRow, KeyTaken;
    if |plans| > 0 {
      var before, p := DocumentsApplied(db, plans[..|plans| - 1]), plans[|plans| - 1];
      DocumentsFrame(db, plans[..|plans| - 1]);
      if p.PutDocument? {
        var put := Written(before, PutDocumentRow(DocumentRow(before, p)));
        RevisionsFrame(put, p.source.id, p.revisions, TargetRevisions(put, p.source.id));
      }
    }
  }

  /** Two plans that cannot get into each other's way. */
  ghost predicate PlansApart(p: DocumentPlan, q: DocumentPlan) {
    p.PutDocument? && q.PutDocument? ==>
      && p.source.id != q.source.id
      && (p.source.issueId != q.source.issueId || p.source.key != q.source.key)
      && RevisionIds(p.revisions) !! RevisionIds(q.revisions)
  }

  ghost predicate PlanFits(db: Db, p: DocumentPlan) {
    p.PutDocument? ==>
      && p.source.issueId in db.issues && !KeyTaken(db, p.source)
      && DistinctRevisions(p.revisions) && RevisionIds(p.revisions) !! db.revisions.Keys
  }

  ghost predicate AllApart(db: Db, plans: seq<DocumentPlan>) {
    && (forall p :: p in plans ==> PlanFits(db, p))
    && forall i, j :: 0 <= i < j < |plans| ==> PlansApart(plans[i], plans[j])
  }

  function PutIds(plans: seq<DocumentPlan>): set<Id> {
    set p | p in plans && p.PutDocument? :: p.source.id
  }

  /** The row and the revisions that a plan asks for are there. */
  ghost predicate Carried(db: Db, now: Db, p: DocumentPlan) {
    p.PutDocument? ==>
      && p.source.id in now.documents && now.documents[p.source.id] == DocumentRow(db, p)
      && forall r :: r in p.revisions ==> r.source.id in now.revisions && now.revisions[r.source.id] == RevisionRow(p.source.id, r)
  }

  ghost predicate FromPlan(plans: seq<DocumentPlan>, revision: Id) {
    exists p :: p in plans && p.PutDocument? && revision in RevisionIds(p.revisions)
  }

  ghost predicate NothingElse(db: Db, now: Db, plans: seq<DocumentPlan>) {
    && now == db.(documents := now.documents, revisions := now.revisions)
    && now.documents.Keys == db.documents.Keys + PutIds(plans)
    && (forall id :: id in db.documents && id !in PutIds(plans) ==> now.documents[id] == db.documents[id])
    && (forall id :: id in db.revisions ==> id in now.revisions && now.revisions[id] == db.revisions[id])
    && (forall id :: id in now.revisions ==> id in db.revisions || FromPlan(plans, id))
  }

  lemma DocumentOutcome(db: Db, p: DocumentPlan)
    requires p.PutDocument? && PlanFits(db, p)
    ensures var now := DocumentApplied(db, p);
      && Carried(db, now, p)
      && now == db.(documents := db.documents[p.source.id := DocumentRow(db, p)], revisions := now.revisions)
      && now.revisions.Keys == db.revisions.Keys + RevisionIds(p.revisions)
      && (forall id :: id in db.revisions ==> now.revisions[id] == db.revisions[id])
  {
    var put := Written(db, PutDocumentRow(DocumentRow(db, p)));
    assert TargetRevisions(put, p.source.id) <= db.revisions.Keys;
    RevisionsOutcome(put, p.source.id, p.revisions, TargetRevisions(put, p.source.id));
    var now := DocumentApplied(db, p);
    forall r | r in p.revisions
      ensures r.source.id in now.revisions && now.revisions[r.source.id] == RevisionRow(p.source.id, r)
    {
      var i :| 0 <= i < |p.revisions| && p.revisions[i] == r;
      RevisionPlaced(put, p.source.id, p.revisions, TargetRevisions(put, p.source.id), i);
    }
  }

  lemma StillFits(db: Db, now: Db, front: seq<DocumentPlan>, p: DocumentPlan)
    requires NothingElse(db, now, front) && (forall q :: q in front ==> Carried(db, now, q) && PlansApart(q, p))
    requires PlanFits(db, p)
    ensures PlanFits(now, p)
    ensures p.PutDocument? ==> DocumentRow(now, p) == DocumentRow(db, p)
  {
    if p.PutDocument? {
      forall q | q in front && q.PutDocument?
        ensures Carried(db, now, q) && q.source.id != p.source.id && RevisionIds(q.revisions) !! RevisionIds(p.revisions)
        ensures q.source.issueId != p.source.issueId || q.source.key != p.source.key
      {
        assert PlansApart(q, p);
      }
      forall id | id in now.documents && id != p.source.id
        ensures now.documents[id].issueId != p.source.issueId || now.documents[id].key != p.source.key
      {
        if id in PutIds(front) {
          var q :| q in front && q.PutDocument? && q.source.id == id;
          assert Carried(db, now, q);
        }
      }
      forall id | id in RevisionIds(p.revisions) ensures !FromPlan(front, id) {
      }
    }
  }

  lemma OneMore(db: Db, now: Db, after: Db, front: seq<DocumentPlan>, p: DocumentPlan)
    requires NothingElse(db, now, front) && p.PutDocument? && DocumentRow(now, p) == DocumentRow(db, p)
    requires after == now.(documents := now.documents[p.source.id := DocumentRow(now, p)], revisions := after.revisions)
    requires after.revisions.Keys == now.revisions.Keys + RevisionIds(p.revisions)
    requires forall id :: id in now.revisions ==> after.revisions[id] == now.revisions[id]
    ensures NothingElse(db, after, front + [p])
  {
    var plans := front + [p];
    assert PutIds(plans) == PutIds(front) + {p.source.id};
    forall id | id in after.revisions ensures id in db.revisions || FromPlan(plans, id) {
      if id in RevisionIds(p.revisions) {
        assert p in plans;
      } else if id !in db.revisions {
        var q :| q in front && q.PutDocument? && id in RevisionIds(q.revisions);
        assert q in plans;
      }
    }
  }

  lemma StillCarried(db: Db, now: Db, after: Db, q: DocumentPlan, p: DocumentPlan)
    requires Carried(db, now, q) && p.PutDocument? && PlansApart(q, p)
    requires after.documents == now.documents[p.source.id := DocumentRow(now, p)]
    requires now.revisions.Keys <= after.revisions.Keys
    requires forall id :: id in now.revisions ==> after.revisions[id] == now.revisions[id]
    ensures Carried(db, after, q)
  {
  }

  /** Every document plan is carried out in full, and nothing else changes. */
  lemma {:induction false} DocumentsOutcome(db: Db, plans: seq<DocumentPlan>)
    requires AllApart(db, plans)
    ensures NothingElse(db, DocumentsApplied(db, plans), plans)
    ensures forall p :: p in plans ==> Carried(db, DocumentsApplied(db, plans), p)
  {
    hide DocumentApplied, DocumentRow, PlanFits, PlansApart, KeyTaken;
    if |plans| > 0 {
      var front, p := plans[..|plans| - 1], plans[|plans| - 1];
      assert plans == front + [p];
      DocumentsOutcome(db, front);
      var now := DocumentsApplied(db, front);
      forall q | q in front ensures PlansApart(q, p) {
      }
      if p.PutDocument? {
        StillFits(db, now, front, p);
        DocumentOutcome(now, p);
        var after := DocumentApplied(now, p);
        OneMore(db, now, after, front, p);
        forall q | q in front ensures Carried(db, after, q) {
          StillCarried(db, now, after, q, p);
        }
      } else {
        SkipLeaves(now, p);
        assert PutIds(plans) == PutIds(front);
      }
    }
  }

  lemma SkipLeaves(db: Db, p: DocumentPlan)
    requires p.SkipDocument?
    ensures DocumentApplied(db, p) == db
  {
  }

  /** No two documents share an issue and a key. */
  ghost predicate UniqueSlots(db: Db) {
    forall a, b :: a in db.documents && b in db.documents && a != b ==>
      db.documents[a].issueId != db.documents[b].issueId || db.documents[a].key != db.documents[b].key
  }

  lemma {:induction false} RevisionsOnly(db: Db, documentId: Id, planned: seq<PlannedRevision>, existing: set<Id>)
    ensures RevisionsApplied(db, documentId, planned, existing).documents == db.documents
  {
    if |planned| > 0 {
      RevisionsOnly(db, documentId, planned[..|planned| - 1], existing);
    }
  }

  lemma OnePutKeepsSlots(db: Db, p: DocumentPlan)
    requires UniqueSlots(db)
    ensures UniqueSlots(DocumentApplied(db, p))
  {
    if p.PutDocument? && p.source.issueId in db.issues && !KeyTaken(db, p.source) {
      var put := Written(db, PutDocumentRow(DocumentRow(db, p)));
      RevisionsOnly(put, p.source.id, p.revisions, TargetRevisions(put, p.source.id));
    }
  }

  lemma {:induction false} ExistingAreSkipped(db: Db, documentId: Id, planned: seq<PlannedRevision>, existing: set<Id>, id: Id)
    requires id in existing && id in db.revisions
    ensures var now := RevisionsApplied(db, documentId, planned, existing); id in now.revisions && now.revisions[id] == db.revisions[id]
  {
    if |planned| > 0 {
      ExistingAreSkipped(db, documentId, planned[..|planned| - 1], existing, id);
    }
  }

  /** Whatever a document's plan says, the revisions that the document has stay as they are. */
  lemma OwnRevisionsStay(db: Db, p: DocumentPlan, id: Id)
    requires id in db.revisions && db.revisions[id].documentId == p.source.id
    ensures var now := DocumentApplied(db, p); id in now.revisions && now.revisions[id] == db.revisions[id]
  {
    if p.PutDocument? {
      var put := Written(db, PutDocumentRow(DocumentRow(db, p)));
      ExistingAreSkipped(put, p.source.id, p.revisions, TargetRevisions(put, p.source.id), id);
    }
  }

  /** Whatever the plans, stale ones included, no issue gets two documents under one key. */
  lemma {:induction false} SlotsStayUnique(db: Db, plans: seq<DocumentPlan>)
    requires UniqueSlots(db)
    ensures UniqueSlots(DocumentsApplied(db, plans))
  {
    hide UniqueSlots, DocumentApplied;
    if |plans| > 0 {
      SlotsStayUnique(db, plans[..|plans| - 1]);
      OnePutKeepsSlots(DocumentsApplied(db, plans[..|plans| - 1]), plans[|plans| - 1]);
    }
  }

  // ----- attachments -----

  lemma {:induction false} AttachmentsOutcome(db: Db, plans: seq<AttachmentPlan>, existing: set<Id>, bodies: Attachment -> bool)
    ensures var now := AttachmentsApplied(db, plans, existing, bodies);
      && now == db.(assets := now.assets, attachments := now.attachments) && db.attachments.Keys <= now.attachments.Keys
      && forall p :: p in plans && p.InsertAttachment? && p.source.id !in existing && p.source.issueId in db.issues && bodies(p.source) ==>
        p.source.id in now.attachments
  {
    if |plans| > 0 {
      var front := plans[..|plans| - 1];
      AttachmentsOutcome(db, front, existing, bodies);
      assert plans == front + [plans[|plans| - 1]];
    }
  }
}
