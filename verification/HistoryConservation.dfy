/** What an import keeps of the target, what it brings over from the source, and what it clears. */
module HistoryConservation {
  import opened HistoryTypes
  import opened ImportOrder
  import opened HistoryPlan
  import opened HistoryRevisions
  import opened HistoryApply
  import opened HistoryOutcome
  import opened HistoryClosure
  import opened HistoryDocuments
  import opened HistoryTheorems
  import opened HistoryReimport
  import opened Optional

  // ----- where rows come from -----

  lemma {:induction false} WorkspacesOrigin(db: Db, rows: seq<Workspace>, existing: set<Id>)
    ensures var now := WorkspacesApplied(db, rows, existing);
      && db.workspaces.Keys <= now.workspaces.Keys
      && (forall id :: id in existing && id in db.workspaces ==> now.workspaces[id] == db.workspaces[id])
      && forall id :: id in now.workspaces ==> IsFromWorkspaces(db, rows, id, now.workspaces[id])
  {
    hide Written;
    if |rows| > 0 {
      var front, w := rows[..|rows| - 1], rows[|rows| - 1];
      WorkspacesOrigin(db, front, existing);
      OneWorkspace(WorkspacesApplied(db, front, existing), w);
      assert rows == front + [w];
    }
  }

  predicate IsFromWorkspaces(db: Db, rows: seq<Workspace>, id: Id, row: Workspace) {
    (id in db.workspaces && row == db.workspaces[id]) || (row.id == id && row in rows)
  }

  ghost predicate ImportedBy(plans: seq<ProjectImport>, row: Project) {
    exists p :: p in plans && p.project == row
  }

  ghost predicate ComesWith(plans: seq<ProjectImport>, row: Workspace) {
    exists p :: p in plans && row in p.workspaces
  }

  /** Where the rows of both tables come from. */
  ghost predicate AreFrom(db: Db, plans: seq<ProjectImport>, now: Db) {
    && (forall id :: id in now.projects ==>
        (id in db.projects && now.projects[id] == db.projects[id]) || (now.projects[id].id == id && ImportedBy(plans, now.projects[id])))
    && (forall id :: id in now.workspaces ==>
        (id in db.workspaces && now.workspaces[id] == db.workspaces[id])
        || (now.workspaces[id].id == id && ComesWith(plans, now.workspaces[id])))
  }

  lemma MoreImports(db: Db, front: seq<ProjectImport>, p: ProjectImport, before: Db, put: Db, now: Db)
    requires AreFrom(db, front, before)
    requires put == before.(projects := before.projects[p.project.id := p.project]) && now == put.(workspaces := now.workspaces)
    requires forall id :: id in now.workspaces ==> IsFromWorkspaces(put, p.workspaces, id, now.workspaces[id])
    ensures AreFrom(db, front + [p], now)
  {
    hide ImportedBy, ComesWith;
    PlansGrow(front, p);
  }

  lemma PlansGrow(front: seq<ProjectImport>, p: ProjectImport)
    ensures forall row :: ImportedBy(front, row) || row == p.project ==> ImportedBy(front + [p], row)
    ensures forall row :: ComesWith(front, row) || row in p.workspaces ==> ComesWith(front + [p], row)
  {
    assert p in front + [p] && forall q :: q in front ==> q in front + [p];
    forall row | ComesWith(front, row) ensures ComesWith(front + [p], row) {
      var q :| q in front && row in q.workspaces;
      assert q in front + [p];
    }
  }

  lemma SameImports(db: Db, front: seq<ProjectImport>, p: ProjectImport, now: Db)
    requires AreFrom(db, front, now)
    ensures AreFrom(db, front + [p], now)
  {
    hide ImportedBy, ComesWith;
    PlansGrow(front, p);
  }

  lemma OneProject(db: Db, row: Project)
    ensures Written(db, PutProject(row)) == db.(projects := db.projects[row.id := row])
  {
  }

  lemma {:induction false} ProjectsOrigin(db: Db, plans: seq<ProjectImport>, projects: set<Id>, workspaces: set<Id>)
    ensures var now := ProjectsApplied(db, plans, projects, workspaces);
      && db.projects.Keys <= now.projects.Keys && db.workspaces.Keys <= now.workspaces.Keys
      && (forall id :: id in projects && id in db.projects ==> now.projects[id] == db.projects[id])
      && (forall id :: id in workspaces && id in db.workspaces ==> now.workspaces[id] == db.workspaces[id])
      && AreFrom(db, plans, now)
  {
    hide WorkspacesApplied, Written, IsFromWorkspaces;
    if |plans| > 0 {
      hide AreFrom;
      var front, p := plans[..|plans| - 1], plans[|plans| - 1];
      assert plans == front + [p];
      ProjectsOrigin(db, front, projects, workspaces);
      var before := ProjectsApplied(db, front, projects, workspaces);
      if p.project.id in projects {
        SameImports(db, front, p, before);
      } else {
        var put := Written(before, PutProject(p.project));
        OneProject(before, p.project);
        WorkspacesOrigin(put, p.workspaces, workspaces);
        WorkspacesOutcome(put, p.workspaces, workspaces);
        MoreImports(db, front, p, before, put, WorkspacesApplied(put, p.workspaces, workspaces));
      }
    } else {
      NoImports(db);
    }
  }

  lemma NoImports(db: Db)
    ensures AreFrom(db, [], db)
  {
  }

  function CommentRow(p: CommentPlan): Comment
    requires p.InsertComment?
  {
    p.source.(authorAgentId := p.authorAgentId)
  }

  ghost predicate CommentFrom(plans: seq<CommentPlan>, row: Comment) {
    exists p :: p in plans && p.InsertComment? && row == CommentRow(p)
  }

  lemma {:induction false} CommentsOrigin(db: Db, plans: seq<CommentPlan>, existing: set<Id>)
    ensures var now := CommentsApplied(db, plans, existing);
      && db.comments.Keys <= now.comments.Keys
      && (forall id :: id in existing && id in db.comments ==> now.comments[id] == db.comments[id])
      && (forall id :: id in now.comments && id !in db.comments ==> now.comments[id].id == id && CommentFrom(plans, now.comments[id]))
      && (forall id :: id in db.comments && id !in existing ==> now.comments[id] == db.comments[id] || CommentFrom(plans, now.comments[id]))
  {
    if |plans| > 0 {
      var front, p := plans[..|plans| - 1], plans[|plans| - 1];
      CommentsOrigin(db, front, existing);
      assert p in plans && forall q :: q in front ==> q in plans;
      forall row: Comment | CommentFrom(front, row) ensures CommentFrom(plans, row) {
      }
      if p.InsertComment? {
        assert CommentFrom(plans, CommentRow(p));
      }
    }
  }

  function AttachmentRow(p: AttachmentPlan): Attachment
    requires p.InsertAttachment?
  {
    p.source.(commentId := p.commentId, createdByAgentId := p.createdByAgentId)
  }

  ghost predicate AttachmentFrom(plans: seq<AttachmentPlan>, issues: set<Id>, bodies: Attachment -> bool, id: Id, row: Attachment) {
    exists p :: p in plans && p.InsertAttachment? && p.source.id == id && p.source.issueId in issues && bodies(p.source) && row == AttachmentRow(p)
  }

  lemma AttachmentFromMore(
    front: seq<AttachmentPlan>, p: AttachmentPlan, issues: set<Id>, bodies: Attachment -> bool, id: Id, row: Attachment)
    requires AttachmentFrom(front, issues, bodies, id, row)
    ensures AttachmentFrom(front + [p], issues, bodies, id, row)
  {
    var q :| q in front && q.InsertAttachment? && q.source.id == id && q.source.issueId in issues && bodies(q.source) && row == AttachmentRow(q);
    assert q in front + [p];
  }

  lemma {:induction false} AttachmentsOrigin(db: Db, plans: seq<AttachmentPlan>, existing: set<Id>, bodies: Attachment -> bool)
    requires existing == db.attachments.Keys
    ensures var now := AttachmentsApplied(db, plans, existing, bodies);
      && now.issues == db.issues && db.attachments.Keys <= now.attachments.Keys
      && (forall id :: id in db.attachments ==> now.attachments[id] == db.attachments[id])
      && forall id :: id in now.attachments && id !in db.attachments ==>
        AttachmentFrom(plans, db.issues.Keys, bodies, id, now.attachments[id])
  {
    if |plans| > 0 {
      var front, p := plans[..|plans| - 1], plans[|plans| - 1];
      AttachmentsOrigin(db, front, existing, bodies);
      var before, now := AttachmentsApplied(db, front, existing, bodies), AttachmentsApplied(db, plans, existing, bodies);
      assert plans == front + [p];
      forall id | id in now.attachments && id !in db.attachments
        ensures AttachmentFrom(plans, db.issues.Keys, bodies, id, now.attachments[id])
      {
        if id in before.attachments && now.attachments[id] == before.attachments[id] {
          AttachmentFromMore(front, p, db.issues.Keys, bodies, id, now.attachments[id]);
        } else {
          assert p in plans;
        }
      }
    }
  }

  // ----- what is kept -----

  /** Rows of the target survive an import as they were; a document that is merged keeps its
      place, its creator and its creation times. */
  lemma TargetRowsKept(src: Source, db: Db, opts: Options, order: seq<Issue>, plan: Plan, bodies: Attachment -> bool)
    requires UniqueRows(src, db) && SharedRowsAgree(src, db) && IsPlan(src, db, opts, order, plan)
    ensures var now := Applied(db, plan, bodies);
      && (forall id :: id in db.projects ==> id in now.projects && now.projects[id] == db.projects[id])
      && (forall id :: id in db.workspaces ==> id in now.workspaces && now.workspaces[id] == db.workspaces[id])
      && (forall id :: id in db.issues ==> id in now.issues && now.issues[id] == db.issues[id])
      && (forall id :: id in db.comments ==> id in now.comments && now.comments[id] == db.comments[id])
      && (forall id :: id in db.revisions ==> id in now.revisions && now.revisions[id] == db.revisions[id])
      && (forall id :: id in db.attachments ==> id in now.attachments && now.attachments[id] == db.attachments[id])
      && (forall id :: id in db.documents ==> id in now.documents && SameOrigin(now.documents[id], db.documents[id]))
  {
    ProjectsOrigin(db, plan.projects, db.projects.Keys, db.workspaces.Keys);
    StagesAgree(db, plan);
    CommentsOrigin(AfterIssues(db, plan), plan.comments, db.comments.Keys);
    DocumentsFrame(AfterComments(db, plan), plan.documents);
    AttachmentsOrigin(AfterDocuments(db, plan), plan.attachments, AfterDocuments(db, plan).attachments.Keys, bodies);
    FinalTables(db, plan, bodies);
    PreviewEqualsApply(src, db, opts, order, plan, bodies);
    DocumentsEnd(src, db, opts, order, plan, bodies);
    hide AfterProjects, AfterIssues, AfterDocuments, ProjectsApplied, CommentsApplied, AttachmentsApplied, DocumentsApplied;
    hide DocumentsPlanned, PutIds, Carried, NewInserts, InsertedIds, Available;
    var now := Applied(db, plan, bodies);
    forall id | id in db.documents ensures id in now.documents && SameOrigin(now.documents[id], db.documents[id]) {
      if id in PutIds(plan.documents) {
        var doc := PutSource(src, db, plan.documents, id);
        MergedRow(src, db, now, plan.documents, doc);
      }
    }
  }

  predicate SameOrigin(now: Document, before: Document) {
    && SameSlot(now, before) && now.createdByAgentId == before.createdByAgentId
    && now.createdAt == before.createdAt && now.linkCreatedAt == before.linkCreatedAt
  }

  lemma MergedRow(src: Source, db: Db, now: Db, plans: seq<DocumentPlan>, doc: Document)
    requires SharedRowsAgree(src, db) && DocumentsPlanned(src, db, plans) && (forall p :: p in plans ==> Carried(db, now, p))
    requires doc in src.documents && doc.id in db.documents && DocumentPlanFor(src, db, doc).PutDocument?
    ensures doc.id in now.documents && SameOrigin(now.documents[doc.id], db.documents[doc.id])
  {
    hide DocumentPlanFor, NewRevisions, NewNumbers, DocumentsPlanned, LatestId, LatestNumber, PlannedRevisions;
    PlanOf(src, db, plans, doc);
    PutPlan(src, db, doc);
    var p := DocumentPlanFor(src, db, doc);
    assert Carried(db, now, p);
    assert SameSlot(db.documents[doc.id], doc);
  }

  // ----- what arrives -----

  /** A document that the target did not have has the source's creator and creation times too. */
  predicate IsNewAs(now: Db, doc: Document)
    requires doc.id in now.documents
  {
    var row := now.documents[doc.id];
    && row.issueId == doc.issueId && row.createdAt == doc.createdAt && row.linkCreatedAt == doc.linkCreatedAt
    && KeptIfThere(row.createdByAgentId, doc.createdByAgentId, now.agents)
  }

  /** A source document whose issue is there, and whose slot no other document holds, ends up
      with the source's text, times and editor; if that agent exists. */
  lemma DocumentArrives(
    src: Source, db: Db, opts: Options, order: seq<Issue>, plan: Plan, bodies: Attachment -> bool, doc: Document)
    requires UniqueRows(src, db) && SharedRowsAgree(src, db) && IsPlan(src, db, opts, order, plan) && doc in src.documents
    requires doc.id in db.documents || !KeyTaken(db, doc)
    ensures var now := Applied(db, plan, bodies);
      doc.issueId in now.issues ==>
        && doc.id in now.documents
        && now.documents[doc.id].key == doc.key && now.documents[doc.id].content == doc.content
        && now.documents[doc.id].updatedAt == doc.updatedAt && now.documents[doc.id].linkUpdatedAt == doc.linkUpdatedAt
        && now.documents[doc.id].updatedByUser == doc.updatedByUser
        && (doc.latestRevisionId.Some? ==> now.documents[doc.id].latestRevisionId == doc.latestRevisionId)
        && (doc.latestRevisionId == None && doc.id in db.documents ==>
            now.documents[doc.id].latestRevisionId == db.documents[doc.id].latestRevisionId)
        && (doc.latestRevisionId == None && doc.id !in db.documents ==> now.documents[doc.id].latestRevisionId == None)
        && now.documents[doc.id].updatedByAgentId == Kept(doc.updatedByAgentId, now.agents)
        && (doc.id !in db.documents ==> IsNewAs(now, doc))
        && forall r :: r in src.revisions && r.documentId == doc.id ==> r.id in TargetRevisions(now, doc.id)
  {
    DocumentsEnd(src, db, opts, order, plan, bodies);
    FinalTables(db, plan, bodies);
    IssuesStay(src, db, opts, order, plan, bodies);
    hide Applied, NewNumbers, DocumentsPlanned, Carried, FromPlan, Available, DocumentPlanFor, KeyTaken, TargetNumbers, NewRevisions, IsNewAs;
    var now, plans := Applied(db, plan, bodies), plan.documents;
    UniqueRevisionIds(src, db);
    NewRevisionsAre(src, db, doc.id);
    SameKeys(db, now, doc.id);
    if doc.issueId in Available(src, db) {
      if DocumentPlanFor(src, db, doc).PutDocument? {
        RowAfterPut(src, db, now, plans, doc);
        NewRowAfterPut(src, db, now, plans, doc);
        NumbersAfterPut(src, db, now, plans, doc);
        AllNewNumbered(src, db, doc.id);
      } else {
        NotPut(src, db, plans, doc);
        SkippedAsExisting(src, db, doc);
        SkippedMatches(src, db, doc);
        NumbersUntouched(src, db, now, plans, doc.id);
      }
    }
  }

  lemma NewRowAfterPut(src: Source, db: Db, now: Db, plans: seq<DocumentPlan>, doc: Document)
    requires DocumentsPlanned(src, db, plans) && (forall p :: p in plans ==> Carried(db, now, p))
    requires doc in src.documents && DocumentPlanFor(src, db, doc).PutDocument? && now.agents == db.agents
    ensures doc.id !in db.documents ==> doc.id in now.documents && IsNewAs(now, doc)
  {
    hide DocumentPlanFor, NewRevisions, NewNumbers, DocumentsPlanned, LatestId, LatestNumber, PlannedRevisions, KeyTaken, Available;
    PlanOf(src, db, plans, doc);
    PutPlan(src, db, doc);
    assert Carried(db, now, DocumentPlanFor(src, db, doc));
  }

  /** A source document is there afterwards exactly if the target had it, or its issue is there and
      no document of the target is in its slot. */
  lemma DocumentThereIff(
    src: Source, db: Db, opts: Options, order: seq<Issue>, plan: Plan, bodies: Attachment -> bool, doc: Document)
    requires UniqueRows(src, db) && SharedRowsAgree(src, db) && IsPlan(src, db, opts, order, plan) && doc in src.documents
    ensures var now := Applied(db, plan, bodies);
      doc.id in now.documents <==>
        || doc.id in db.documents
        || (doc.issueId in now.issues && forall id :: id in db.documents ==> !SameSlot(db.documents[id], doc))
  {
    DocumentsEnd(src, db, opts, order, plan, bodies);
    IssuesStay(src, db, opts, order, plan, bodies);
    if doc.id !in db.documents {
      PutOrSkip(src, db, doc);
    }
    hide Applied, DocumentsPlanned, Carried, FromPlan, Available, DocumentPlanFor, KeyTaken, UniqueRows, SharedRowsAgree;
    if DocumentPlanFor(src, db, doc).PutDocument? {
      RowAfterPut(src, db, Applied(db, plan, bodies), plan.documents, doc);
    } else {
      NotPut(src, db, plan.documents, doc);
    }
  }

  lemma PutOrSkip(src: Source, db: Db, doc: Document)
    requires doc.id !in db.documents
    ensures DocumentPlanFor(src, db, doc).PutDocument? <==>
      doc.issueId in Available(src, db) && forall id :: id in db.documents ==> !SameSlot(db.documents[id], doc)
  {
    hide NewRevisions, NewNumbers, LatestNumber, LatestId, Available, AlreadyMatches;
    NewNumbersCount(src, db, doc.id);
  }

  lemma AllNewNumbered(src: Source, db: Db, documentId: Id)
    requires DistinctIds(src.revisions) && |NewNumbers(src, db, documentId)| == |NewRevisions(src, db, documentId)|
    ensures forall r :: r in src.revisions && r.documentId == documentId ==>
      r.id in TargetRevisions(db, documentId) || r.id in NumberMap(NewRevisions(src, db, documentId), NewNumbers(src, db, documentId))
  {
    hide NewRevisions, NewNumbers, NumberMap;
    NewRevisionsAre(src, db, documentId);
    var rows := NewRevisions(src, db, documentId);
    NumberMapHolds(rows, NewNumbers(src, db, documentId));
    forall r | r in src.revisions && r.documentId == documentId && r.id !in TargetRevisions(db, documentId)
      ensures r.id in NumberMap(rows, NewNumbers(src, db, documentId))
    {
      assert r in rows;
      var i :| 0 <= i < |rows| && rows[i] == r;
    }
  }

  /** The number on the document is that of its latest revision, or the source's if that is missing. */
  predicate ShowsNumber(now: Db, doc: Document)
    requires doc.id in now.documents
  {
    var row := now.documents[doc.id];
    var latest := row.latestRevisionId;
    row.latestRevisionNumber ==
      if latest.Some? && latest.value in now.revisions && now.revisions[latest.value].documentId == doc.id
      then now.revisions[latest.value].number else doc.latestRevisionNumber
  }

  lemma LatestNumberIs(db: Db, now: Db, doc: Document, rows: seq<Revision>, numbers: seq<int>)
    requires |rows| == |numbers| && TargetNumbers(now, doc.id) == TargetNumbers(db, doc.id) + NumberMap(rows, numbers)
    requires doc.id in now.documents && now.documents[doc.id].latestRevisionId == LatestId(db, doc)
    requires now.documents[doc.id].latestRevisionNumber == LatestNumber(db, doc, rows, numbers)
    ensures ShowsNumber(now, doc)
  {
    hide NumberMap, LatestId;
    SameKeys(db, now, doc.id);
  }

  lemma NumberShown(
    src: Source, db: Db, opts: Options, order: seq<Issue>, plan: Plan, bodies: Attachment -> bool, doc: Document)
    requires UniqueRows(src, db) && SharedRowsAgree(src, db) && IsPlan(src, db, opts, order, plan) && doc in src.documents
    requires doc.id in db.documents || !KeyTaken(db, doc)
    ensures var now := Applied(db, plan, bodies);
      doc.issueId in now.issues ==> doc.id in now.documents && ShowsNumber(now, doc)
  {
    hide Applied, NewNumbers, DocumentsPlanned, Carried, FromPlan, Available, DocumentPlanFor, KeyTaken, NewRevisions, UniqueRows, LatestId,
      SharedRowsAgree, LatestNumber, NumberMap, TargetNumbers, ShowsNumber, SameSlot;
    UniqueIssues(src, db);
    DocumentsEnd(src, db, opts, order, plan, bodies);
    IssuesStay(src, db, opts, order, plan, bodies);
    var now, plans := Applied(db, plan, bodies), plan.documents;
    if doc.issueId in Available(src, db) {
      if DocumentPlanFor(src, db, doc).PutDocument? {
        RowAfterPut(src, db, now, plans, doc);
        NumbersAfterPut(src, db, now, plans, doc);
        LatestNumberIs(db, now, doc, NewRevisions(src, db, doc.id), NewNumbers(src, db, doc.id));
      } else {
        NotPut(src, db, plans, doc);
        SkippedAsExisting(src, db, doc);
        SkippedShows(src, db, doc);
        NumbersUntouched(src, db, now, plans, doc.id);
        NoMoreNumbers(db, doc.id);
        LatestNumberIs(db, now, doc, [], []);
      }
    }
  }

  lemma UniqueIssues(src: Source, db: Db)
    requires UniqueRows(src, db)
    ensures UniqueIssueIds(src.issues)
  {
  }

  lemma NoMoreNumbers(db: Db, documentId: Id)
    ensures TargetNumbers(db, documentId) + NumberMap([], []) == TargetNumbers(db, documentId)
  {
  }

  lemma SkippedShows(src: Source, db: Db, doc: Document)
    requires DocumentPlanFor(src, db, doc) == SkipDocument(doc, Existing) && doc.id in db.documents
    ensures |NewNumbers(src, db, doc.id)| == 0 && NewRevisions(src, db, doc.id) == []
    ensures db.documents[doc.id].latestRevisionId == LatestId(db, doc)
    ensures db.documents[doc.id].latestRevisionNumber == LatestNumber(db, doc, [], [])
  {
    hide NewRevisions, NewNumbers, LatestNumber, LatestId, KeyTaken, Available;
    NewNumbersCount(src, db, doc.id);
    assert NewNumbers(src, db, doc.id) == [] || |NewRevisions(src, db, doc.id)| > 0;
  }

  lemma SkippedMatches(src: Source, db: Db, doc: Document)
    requires DocumentPlanFor(src, db, doc) == SkipDocument(doc, Existing) && doc.id in db.documents
    ensures NewRevisions(src, db, doc.id) == []
    ensures var row := db.documents[doc.id];
      && row.key == doc.key && row.content == doc.content && row.updatedAt == doc.updatedAt && row.linkUpdatedAt == doc.linkUpdatedAt
      && row.updatedByUser == doc.updatedByUser && row.updatedByAgentId == Kept(doc.updatedByAgentId, db.agents)
      && row.latestRevisionId == LatestId(db, doc)
  {
    hide NewRevisions, NewNumbers, LatestNumber, LatestId, KeyTaken, Available;
    NewNumbersCount(src, db, doc.id);
  }

  /** A source revision that the target lacks arrives with its text and time, under its document,
      with its author if that agent exists; only its number may change. */
  lemma RevisionContentArrives(
    src: Source, db: Db, opts: Options, order: seq<Issue>, plan: Plan, bodies: Attachment -> bool, doc: Document, r: Revision)
    requires UniqueRows(src, db) && SharedRowsAgree(src, db) && IsPlan(src, db, opts, order, plan) && doc in src.documents
    requires doc.id in db.documents || !KeyTaken(db, doc)
    requires r in src.revisions && r.documentId == doc.id && r.id !in db.revisions
    ensures var now := Applied(db, plan, bodies);
      doc.issueId in now.issues ==>
        && r.id in now.revisions
        && now.revisions[r.id] == r.(number := now.revisions[r.id].number, createdByAgentId := Kept(r.createdByAgentId, now.agents))
  {
    DocumentsEnd(src, db, opts, order, plan, bodies);
    FinalTables(db, plan, bodies);
    IssuesStay(src, db, opts, order, plan, bodies);
    hide Applied, NewNumbers, DocumentsPlanned, Carried, FromPlan, Available, DocumentPlanFor, KeyTaken, NewRevisions, UniqueRows;
    var now, plans := Applied(db, plan, bodies), plan.documents;
    UniqueRevisionIds(src, db);
    NewRevisionsAre(src, db, doc.id);
    if doc.issueId in Available(src, db) {
      var rows := NewRevisions(src, db, doc.id);
      assert r in rows;
      var i :| 0 <= i < |rows| && rows[i] == r;
      MustPut(src, db, doc);
      RevisionArrives(src, db, now, plans, doc, i);
    }
  }

  lemma MustPut(src: Source, db: Db, doc: Document)
    requires doc.issueId in Available(src, db) && (doc.id in db.documents || !KeyTaken(db, doc))
    requires |NewRevisions(src, db, doc.id)| > 0
    ensures DocumentPlanFor(src, db, doc).PutDocument?
  {
    hide NewRevisions, NewNumbers, LatestNumber, LatestId, KeyTaken, Available, AlreadyMatches;
    NewNumbersCount(src, db, doc.id);
  }

  ghost predicate UniqueComments(src: Source) {
    forall c, d :: c in src.comments && d in src.comments && c.id == d.id ==> c == d
  }

  /** When comments are in scope, every source comment whose issue is there arrives, with its
      author if that agent exists; nothing else does. */
  lemma CommentsArrive(src: Source, db: Db, opts: Options, order: seq<Issue>, plan: Plan, bodies: Attachment -> bool, id: Id)
    requires UniqueIssueIds(src.issues) && UniqueComments(src) && IsPlan(src, db, opts, order, plan) && id !in db.comments
    ensures var now := Applied(db, plan, bodies);
      && (id in now.comments <==> opts.comments && exists c :: c in src.comments && c.id == id && c.issueId in now.issues)
      && (id in now.comments ==> forall c :: c in src.comments && c.id == id ==>
          now.comments[id] == c.(authorAgentId := Kept(c.authorAgentId, now.agents)))
  {
    IssuesStay(src, db, opts, order, plan, bodies);
    FinalTables(db, plan, bodies);
    StagesAgree(db, plan);
    CommentPlansAre(src, db, opts, plan.comments);
    CommentsOrigin(AfterIssues(db, plan), plan.comments, db.comments.Keys);
    hide Applied, AfterIssues, CommentsApplied, CommentsPlanned, Available, NewCount, IssuesPlanned;
    var now := Applied(db, plan, bodies);
    if id in now.comments {
      var p :| p in plan.comments && p.InsertComment? && now.comments[id] == CommentRow(p);
      assert p.source in src.comments && p.source.id == id && p.source.issueId in now.issues;
    }
    if opts.comments && exists c :: c in src.comments && c.id == id && c.issueId in now.issues {
      var c :| c in src.comments && c.id == id && c.issueId in now.issues;
      assert CommentPlanFor(src, db, c).InsertComment?;
      assert CommentAvailable(src, db, opts, id);
      CommentsThere(src, db, opts, plan, id);
    }
  }

  ghost predicate UniqueAttachments(src: Source) {
    forall a, b :: a in src.attachments && b in src.attachments && a.id == b.id ==> a == b
  }

  lemma CommentsThereIff(src: Source, db: Db, opts: Options, plan: Plan, id: Id)
    requires CommentsPlanned(src, db, opts, plan.comments) && AfterIssues(db, plan).issues.Keys == Available(src, db)
    ensures CommentAvailable(src, db, opts, id) <==> id in AfterComments(db, plan).comments
  {
    StagesAgree(db, plan);
    CommentsOrigin(AfterIssues(db, plan), plan.comments, db.comments.Keys);
    CommentPlansAre(src, db, opts, plan.comments);
    CommentsStage(db, plan);
    if CommentAvailable(src, db, opts, id) {
      CommentsThere(src, db, opts, plan, id);
    }
    hide AfterIssues, CommentsApplied, CommentsPlanned, Available;
    var now := AfterComments(db, plan);
    if id in now.comments && id !in db.comments {
      var p :| p in plan.comments && p.InsertComment? && now.comments[id] == CommentRow(p);
      assert p.source.id == id;
    }
  }

  lemma AttachmentsEnd(src: Source, db: Db, plan: Plan, bodies: Attachment -> bool, id: Id)
    requires id !in db.attachments
    ensures var now := Applied(db, plan, bodies);
      id in now.attachments ==> AttachmentFrom(plan.attachments, now.issues.Keys, bodies, id, now.attachments[id])
  {
    hide AfterComments;
    StagesAgree(db, plan);
    DocumentsFrame(AfterComments(db, plan), plan.documents);
    var before := AfterDocuments(db, plan);
    assert before.attachments == db.attachments;
    hide AfterDocuments, AttachmentFrom, AttachmentsApplied;
    AttachmentsOrigin(before, plan.attachments, before.attachments.Keys, bodies);
  }

  /** The attachment's row, with the references whose rows are there. */
  function AttachmentAsFound(now: Db, a: Attachment): Attachment {
    a.(commentId := Kept(a.commentId, now.comments.Keys), createdByAgentId := Kept(a.createdByAgentId, now.agents))
  }

  lemma PlannedAttachment(src: Source, db: Db, now: Db, opts: Options, a: Attachment)
    requires a.id !in db.attachments && now.agents == db.agents
    requires forall id :: CommentAvailable(src, db, opts, id) <==> id in now.comments
    ensures AttachmentPlanFor(src, db, opts, a).InsertAttachment? <==> a.issueId in Available(src, db)
    ensures var p := AttachmentPlanFor(src, db, opts, a);
      p.InsertAttachment? ==> AttachmentRow(p) == AttachmentAsFound(now, a)
  {
    hide Available, CommentAvailable;
    if a.commentId.Some? {
      var id := a.commentId.value;
      assert CommentAvailable(src, db, opts, id) <==> id in now.comments;
    }
  }

  /** A source attachment arrives exactly if its issue is there and its object is found; with its
      comment and its creator as far as those are there. */
  lemma AttachmentArrives(src: Source, db: Db, opts: Options, order: seq<Issue>, plan: Plan, bodies: Attachment -> bool, a: Attachment)
    requires UniqueIssueIds(src.issues) && UniqueAttachments(src) && IsPlan(src, db, opts, order, plan)
    requires a in src.attachments && a.id !in db.attachments
    ensures var now := Applied(db, plan, bodies);
      && (a.id in now.attachments <==> a.issueId in now.issues && bodies(a))
      && (a.id in now.attachments ==> now.attachments[a.id] == AttachmentAsFound(now, a))
  {
    IssuesStay(src, db, opts, order, plan, bodies);
    FinalTables(db, plan, bodies);
    AttachmentPlansAre(src, db, opts, plan.attachments);
    AttachmentsArrive(db, plan, bodies);
    AttachmentsEnd(src, db, plan, bodies, a.id);
    hide Applied, AfterIssues, AfterComments, AttachmentsPlanned, CommentsPlanned, DocumentsPlanned, IssuesPlanned, ProjectsPlanned;
    hide Available, CommentAvailable, AttachmentPlanFor, NewCount, IsImportOrder;
    var now := Applied(db, plan, bodies);
    forall id ensures CommentAvailable(src, db, opts, id) <==> id in now.comments {
      CommentsThereIff(src, db, opts, plan, id);
    }
    PlannedAttachment(src, db, now, opts, a);
    if a.id in now.attachments {
      var p :| p in plan.attachments && p.InsertAttachment? && p.source.id == a.id && p.source.issueId in now.issues && bodies(p.source)
               && now.attachments[a.id] == AttachmentRow(p);
      assert p.source == a;
    }
  }

  // ----- what is cleared -----

  lemma ProjectsAfter(src: Source, db: Db, opts: Options, plan: Plan)
    requires ProjectsPlanned(src, db, opts, plan.projects)
    ensures var now := AfterProjects(db, plan);
      && (forall id :: id in now.projects <==> id in db.projects || Imports(src, db, opts, id))
      && (forall id :: id in now.workspaces <==> id in db.workspaces || ImportsWorkspace(src, db, opts, id))
  {
    ImportsArrive(src, db, opts, plan);
    ProjectsOrigin(db, plan.projects, db.projects.Keys, db.workspaces.Keys);
    hide ProjectsApplied;
    forall row | ImportedBy(plan.projects, row) ensures Imports(src, db, opts, row.id) {
      var p :| p in plan.projects && p.project == row;
      assert ImportFor(src, db, opts, row.id) == Some(p);
    }
    forall row | ComesWith(plan.projects, row) ensures ImportsWorkspace(src, db, opts, row.id) {
      var p :| p in plan.projects && row in p.workspaces;
      assert ImportFor(src, db, opts, p.project.id) == Some(p);
      WorkspaceOfImport(src, db, opts, p, row);
    }
  }

  ghost predicate UniqueProjects(src: Source) {
    && (forall p, q :: p in src.projects && q in src.projects && p.id == q.id ==> p == q)
    && forall v, w :: v in src.workspaces && w in src.workspaces && v.id == w.id ==> v == w
  }

  /** A project that is asked for, in the source and not in the target arrives with its lead and goal
      as far as those are there, and brings its workspaces; nothing else arrives. */
  lemma ProjectsArrive(src: Source, db: Db, opts: Options, order: seq<Issue>, plan: Plan, bodies: Attachment -> bool)
    requires UniqueProjects(src) && IsPlan(src, db, opts, order, plan)
    ensures var now := Applied(db, plan, bodies);
      && (forall id :: id in now.projects <==> id in db.projects || (id in opts.importProjectIds && exists p :: p in src.projects && p.id == id))
      && (forall p :: p in src.projects && p.id in now.projects && p.id !in db.projects ==> IsProjectAs(now, p))
      && (forall w :: w in src.workspaces && w.id !in db.workspaces ==>
          (w.id in now.workspaces <==> w.projectId in now.projects && w.projectId !in db.projects))
      && (forall w :: w in src.workspaces && w.id in now.workspaces && w.id !in db.workspaces ==> now.workspaces[w.id] == w)
  {
    FinalTables(db, plan, bodies);
    ProjectsAfter(src, db, opts, plan);
    ProjectsOrigin(db, plan.projects, db.projects.Keys, db.workspaces.Keys);
    hide Applied, ProjectsApplied, IssuesPlanned, CommentsPlanned, DocumentsPlanned, AttachmentsPlanned;
    var now := Applied(db, plan, bodies);
    forall id ensures Imports(src, db, opts, id) <==> id in opts.importProjectIds && id !in db.projects && exists p :: p in src.projects && p.id == id {
    }
    forall p | p in src.projects && p.id in now.projects && p.id !in db.projects ensures IsProjectAs(now, p) {
      var q :| q in plan.projects && q.project == now.projects[p.id];
      assert ImportFor(src, db, opts, p.id) == Some(q);
    }
    hide Imports;
    forall w | w in src.workspaces && w.id in now.workspaces && w.id !in db.workspaces ensures now.workspaces[w.id] == w {
      var q :| q in plan.projects && now.workspaces[w.id] in q.workspaces;
      WorkspaceOfImport(src, db, opts, q, now.workspaces[w.id]);
    }
    forall w | w in src.workspaces && w.id !in db.workspaces
      ensures w.id in now.workspaces <==> Imports(src, db, opts, w.projectId)
    {
      assert ImportsWorkspace(src, db, opts, w.id) <==> Imports(src, db, opts, w.projectId);
    }
  }

  predicate IsProjectAs(now: Db, p: Project)
    requires p.id in now.projects
  {
    var row := now.projects[p.id];
    && row.id == p.id && row.content == p.content
    && KeptIfThere(row.leadAgentId, p.leadAgentId, now.agents) && KeptIfThere(row.goalId, p.goalId, now.goals)
  }

  lemma WorkspaceOfImport(src: Source, db: Db, opts: Options, p: ProjectImport, w: Workspace)
    requires ImportFor(src, db, opts, p.project.id) == Some(p) && w in p.workspaces
    ensures w in src.workspaces && Imports(src, db, opts, w.projectId)
  {
    var project := FindProject(src.projects, p.project.id).value;
    SortKeepsMembers(WorkspacesOf(src.workspaces, project.id), PrimaryFirst);
  }

  lemma ReferencesThere(src: Source, db: Db, opts: Options, plan: Plan)
    requires ProjectsPlanned(src, db, opts, plan.projects)
    ensures AfterProjects(db, plan).projects.Keys == ProjectsThere(src, db, opts)
    ensures AfterProjects(db, plan).workspaces.Keys == WorkspacesThere(src, db, opts)
  {
    ProjectsAfter(src, db, opts, plan);
    ThereIff(src, db, opts);
    hide AfterProjects, ProjectsPlanned, Imports, ImportsWorkspace, ProjectsThere, WorkspacesThere;
    assert forall id :: id in AfterProjects(db, plan).projects.Keys <==> id in ProjectsThere(src, db, opts);
    assert forall id :: id in AfterProjects(db, plan).workspaces.Keys <==> id in WorkspacesThere(src, db, opts);
  }

  lemma ThereIff(src: Source, db: Db, opts: Options)
    ensures forall id :: id in ProjectsThere(src, db, opts) <==> id in db.projects || Imports(src, db, opts, id)
    ensures forall id :: id in WorkspacesThere(src, db, opts) <==> id in db.workspaces || ImportsWorkspace(src, db, opts, id)
  {
    hide FindProject;
  }

  lemma ImportedIssue(src: Source, db: Db, opts: Options, order: seq<Issue>, plan: Plan, bodies: Attachment -> bool, issue: Issue)
    returns (number: int)
    requires UniqueIssueIds(src.issues) && IsPlan(src, db, opts, order, plan)
    requires issue in src.issues && issue.id !in db.issues
    ensures var now := Applied(db, plan, bodies);
      issue.id in now.issues && now.issues[issue.id] == TargetRow(src, db, opts, issue).(number := number)
  {
    PreviewEqualsApply(src, db, opts, order, plan, bodies);
    hide Applied, NewInserts, Available, ProjectsPlanned, CommentsPlanned, DocumentsPlanned, AttachmentsPlanned, IssuesPlanned, TargetRow, InsertedIds;
    SourceIsAvailable(src, db, issue);
    var inserts := NewInserts(plan.issues, db.issues.Keys);
    var m := InsertIndex(inserts, issue.id);
    var k := InsertOrigin(plan.issues, db.issues.Keys, m);
    IssuesCounted(src, db, opts, order, plan.issues);
    PlannedRow(src, db, opts, order, plan.issues, k);
    SameIssue(src, order, k, issue);
    number := inserts[m].previewNumber;
  }

  /** An imported issue loses a reference exactly if the row it names is not there after the import
      (a workspace also goes when the project was mapped to another one), is set back to todo
      exactly if it was in progress and has no holder, and is otherwise the source's. */
  lemma ClearedOnlyIfMissing(
    src: Source, db: Db, opts: Options, order: seq<Issue>, plan: Plan, bodies: Attachment -> bool, issue: Issue)
    requires UniqueIssueIds(src.issues) && IsPlan(src, db, opts, order, plan)
    requires issue in src.issues && issue.id !in db.issues
    ensures var now := Applied(db, plan, bodies);
      && issue.id in now.issues && now.agents == db.agents && now.goals == db.goals
      && IssueCarried(db, opts, now.projects.Keys, now.workspaces.Keys, issue, now.issues[issue.id])
  {
    FinalTables(db, plan, bodies);
    ReferencesThere(src, db, opts, plan);
    hide Applied, AfterProjects, ProjectsPlanned, CommentsPlanned, DocumentsPlanned, AttachmentsPlanned, IssuesPlanned, TargetRow,
      ProjectsThere, WorkspacesThere;
    var number := ImportedIssue(src, db, opts, order, plan, bodies, issue);
    TargetRowCarries(src, db, opts, issue);
  }

  lemma SourceIsAvailable(src: Source, db: Db, issue: Issue)
    requires issue in src.issues
    ensures issue.id in Available(src, db)
  {
  }

  lemma SameIssue(src: Source, order: seq<Issue>, k: nat, issue: Issue)
    requires UniqueIssueIds(src.issues) && multiset(order) == multiset(src.issues)
    requires k < |order| && issue in src.issues && order[k].id == issue.id
    ensures order[k] == issue
  {
    assert order[k] in multiset(order);
    assert order[k] in src.issues;
    var i :| 0 <= i < |src.issues| && src.issues[i] == order[k];
    var j :| 0 <= j < |src.issues| && src.issues[j] == issue;
    assert i == j || i < j || j < i;
  }

  lemma PlannedRow(src: Source, db: Db, opts: Options, order: seq<Issue>, plans: seq<IssuePlan>, k: nat)
    requires IssuesPlanned(src, db, opts, order, plans) && k < |plans| == |order| && plans[k].InsertIssue?
    ensures plans[k].target == TargetRow(src, db, opts, order[k]) && plans[k].source == order[k]
  {
    assert plans[k] == IssuePlanAt(src, db, opts, order, k);
  }
}
