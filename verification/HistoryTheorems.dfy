/** What a maintainer is promised about importing one history into another. */
module HistoryTheorems {
  import opened HistoryTypes
  import opened ImportOrder
  import opened HistoryPlan
  import opened HistoryRevisions
  import opened HistoryApply
  import opened HistoryOutcome
  import opened HistoryClosure
  import opened HistoryDocuments

  // ----- the tables at the end -----

  lemma FinalTables(db: Db, plan: Plan, bodies: Attachment -> bool)
    ensures var now := Applied(db, plan, bodies);
      && now.issues == AfterIssues(db, plan).issues && now.issueCounter == AfterIssues(db, plan).issueCounter
      && now.projects == AfterProjects(db, plan).projects && now.workspaces == AfterProjects(db, plan).workspaces
      && now.comments == AfterComments(db, plan).comments
      && now.documents == AfterDocuments(db, plan).documents && now.revisions == AfterDocuments(db, plan).revisions
      && now.agents == db.agents && now.goals == db.goals
      && db.attachments.Keys <= now.attachments.Keys
  {
    hide AfterProjects, AfterIssues, AfterComments;
    StagesAgree(db, plan);
    IssuesStage(db, plan);
    CommentsStage(db, plan);
    DocumentsFrame(AfterComments(db, plan), plan.documents);
    var before := AfterDocuments(db, plan);
    AttachmentsOutcome(before, plan.attachments, before.attachments.Keys, bodies);
  }

  // ----- issue numbers -----

  /** With an unchanged target the applied numbers are the previewed ones, one after another
      from the counter; existing issues keep their rows. */
  lemma PreviewEqualsApply(src: Source, db: Db, opts: Options, order: seq<Issue>, plan: Plan, bodies: Attachment -> bool)
    requires UniqueIssueIds(src.issues) && IsPlan(src, db, opts, order, plan)
    ensures var inserts, now := NewInserts(plan.issues, db.issues.Keys), Applied(db, plan, bodies);
      && now.issueCounter == db.issueCounter + |inserts|
      && now.issues.Keys == Available(src, db)
      && InsertedIds(inserts) !! db.issues.Keys && now.issues.Keys == db.issues.Keys + InsertedIds(inserts)
      && DistinctInserts(inserts)
      && (forall id :: id in db.issues ==> now.issues[id] == db.issues[id])
      && forall m :: 0 <= m < |inserts| ==>
        && inserts[m].previewNumber == db.issueCounter + 1 + m
        && now.issues[inserts[m].source.id] == NumberedRow(inserts[m], inserts[m].previewNumber)
  {
    hide NewInserts, Available, Applied, AfterIssues, NumberedRow, IssuesPlanned;
    InsertsPlanned(src, db, opts, order, plan.issues);
    FinalTables(db, plan, bodies);
    IssuesStage(db, plan);
    KeptIssues(db, plan);
    var inserts := NewInserts(plan.issues, db.issues.Keys);
    forall m | 0 <= m < |inserts|
      ensures var id := inserts[m].source.id;
        && id in AfterIssues(db, plan).issues
        && AfterIssues(db, plan).issues[id] == NumberedRow(inserts[m], db.issueCounter + 1 + m)
    {
      InsertedRow(db, plan, m);
    }
  }

  lemma KeptIssues(db: Db, plan: Plan)
    requires InsertedIds(NewInserts(plan.issues, db.issues.Keys)) !! db.issues.Keys
    ensures forall id :: id in db.issues ==> id in AfterIssues(db, plan).issues && AfterIssues(db, plan).issues[id] == db.issues[id]
  {
    ProjectsStage(db, plan);
    var d1, inserts := AfterProjects(db, plan), NewInserts(plan.issues, db.issues.Keys);
    hide NewInserts, AfterProjects, IssuesApplied;
    IssuesOutcome(Written(d1, SetCounter(d1.issueCounter + |inserts|)), inserts, d1.issueCounter + 1);
  }

  lemma InsertedRow(db: Db, plan: Plan, m: nat)
    requires m < |NewInserts(plan.issues, db.issues.Keys)| && DistinctInserts(NewInserts(plan.issues, db.issues.Keys))
    ensures var p := NewInserts(plan.issues, db.issues.Keys)[m];
      && p.source.id in AfterIssues(db, plan).issues
      && AfterIssues(db, plan).issues[p.source.id] == NumberedRow(p, db.issueCounter + 1 + m)
  {
    ProjectsStage(db, plan);
    var d1, inserts := AfterProjects(db, plan), NewInserts(plan.issues, db.issues.Keys);
    hide NewInserts, AfterProjects, IssuesApplied;
    IssueRow(Written(d1, SetCounter(d1.issueCounter + |inserts|)), inserts, d1.issueCounter + 1, m);
  }

  ghost predicate NumbersBounded(db: Db) {
    forall id :: id in db.issues ==> db.issues[id].number <= db.issueCounter
  }

  ghost predicate NumbersUnique(db: Db) {
    forall a, b :: a in db.issues && b in db.issues && a != b ==> db.issues[a].number != db.issues[b].number
  }

  lemma InsertIndex(inserts: seq<IssuePlan>, id: Id) returns (m: nat)
    requires id in InsertedIds(inserts)
    ensures m < |inserts| && inserts[m].source.id == id
  {
    var p :| p in inserts && p.source.id == id;
    m :| 0 <= m < |inserts| && inserts[m] == p;
  }

  /** If the counter bounds every number it does so afterwards, and no number is given twice. */
  lemma NumbersStayUnique(src: Source, db: Db, opts: Options, order: seq<Issue>, plan: Plan, bodies: Attachment -> bool)
    requires UniqueIssueIds(src.issues) && IsPlan(src, db, opts, order, plan)
    requires NumbersBounded(db)
    ensures NumbersBounded(Applied(db, plan, bodies))
    ensures NumbersUnique(Applied(db, plan, bodies)) <==> NumbersUnique(db)
  {
    hide NewInserts, InsertedIds, Applied, IsPlan, Available;
    PreviewEqualsApply(src, db, opts, order, plan, bodies);
    var now, inserts := Applied(db, plan, bodies), NewInserts(plan.issues, db.issues.Keys);
    forall id | id in now.issues
      ensures now.issues[id].number <= now.issueCounter
      ensures id !in db.issues ==> now.issues[id].number > db.issueCounter
    {
      if id !in db.issues {
        var m := InsertIndex(inserts, id);
      }
    }
    forall a, b | a in now.issues && b in now.issues && a != b && (a !in db.issues || b !in db.issues)
      ensures now.issues[a].number != now.issues[b].number
    {
      if a !in db.issues && b !in db.issues {
        var i := InsertIndex(inserts, a);
        var j := InsertIndex(inserts, b);
        assert i < j || j < i;
      }
    }
    if NumbersUnique(now) {
      forall a, b | a in db.issues && b in db.issues && a != b ensures db.issues[a].number != db.issues[b].number {
        assert now.issues[a].number != now.issues[b].number;
      }
    }
  }

  // ----- documents and revisions -----

  lemma DocumentsEnd(src: Source, db: Db, opts: Options, order: seq<Issue>, plan: Plan, bodies: Attachment -> bool)
    requires UniqueRows(src, db) && SharedRowsAgree(src, db) && IsPlan(src, db, opts, order, plan)
    ensures var now := Applied(db, plan, bodies);
      && now.documents.Keys == db.documents.Keys + PutIds(plan.documents)
      && (forall id :: id in db.documents && id !in PutIds(plan.documents) ==> now.documents[id] == db.documents[id])
      && (forall id :: id in db.revisions ==> id in now.revisions && now.revisions[id] == db.revisions[id])
      && (forall id :: id in now.revisions ==> id in db.revisions || FromPlan(plan.documents, id))
      && forall p :: p in plan.documents ==> Carried(db, now, p)
  {
    hide AfterComments, AfterIssues, AfterProjects, Available, DocumentsApplied, Applied, InsertedIds;
    hide ProjectsPlanned, IssuesPlanned, CommentsPlanned, AttachmentsPlanned, DocumentsPlanned, AllApart;
    var before := AfterComments(db, plan);
    InsertsPlanned(src, db, opts, order, plan.issues);
    StagesAgree(db, plan);
    IssuesStage(db, plan);
    CommentsStage(db, plan);
    PlansFit(src, db, before, plan.documents);
    DocumentsOutcome(before, plan.documents);
    FinalTables(db, plan, bodies);
    forall p | p in plan.documents ensures Carried(db, Applied(db, plan, bodies), p) {
      assert Carried(before, AfterDocuments(db, plan), p);
    }
  }

  /** The i-th new revision of a document whose plan writes has arrived under its planned number. */
  lemma RevisionArrives(src: Source, db: Db, now: Db, plans: seq<DocumentPlan>, doc: Document, i: nat)
    requires DocumentsPlanned(src, db, plans) && (forall p :: p in plans ==> Carried(db, now, p))
    requires doc in src.documents && DocumentPlanFor(src, db, doc).PutDocument? && i < |NewRevisions(src, db, doc.id)|
    ensures |NewNumbers(src, db, doc.id)| == |NewRevisions(src, db, doc.id)|
    ensures var r := NewRevisions(src, db, doc.id)[i];
      && r.id in now.revisions
      && now.revisions[r.id] == r.(documentId := doc.id, number := NewNumbers(src, db, doc.id)[i],
                                   createdByAgentId := Kept(r.createdByAgentId, db.agents))
  {
    hide DocumentPlanFor, NewRevisions, NewNumbers, DocumentsPlanned;
    PlanOf(src, db, plans, doc);
    PutPlan(src, db, doc);
    var p := DocumentPlanFor(src, db, doc);
    assert Carried(db, now, p);
    assert p.revisions[i] in p.revisions;
  }

  lemma RevisionOrigin(src: Source, db: Db, now: Db, plans: seq<DocumentPlan>, id: Id) returns (doc: Document, i: nat)
    requires DocumentsPlanned(src, db, plans) && (forall p :: p in plans ==> Carried(db, now, p))
    requires FromPlan(plans, id)
    ensures doc in src.documents && DocumentPlanFor(src, db, doc).PutDocument? && doc.id in PutIds(plans)
    ensures i < |NewRevisions(src, db, doc.id)| && NewRevisions(src, db, doc.id)[i].id == id
  {
    hide DocumentPlanFor, NewRevisions, NewNumbers, DocumentsPlanned;
    var p :| p in plans && p.PutDocument? && id in RevisionIds(p.revisions);
    PlanSource(src, db, plans, p);
    PutPlan(src, db, p.source);
    doc := p.source;
    i :| 0 <= i < |p.revisions| && p.revisions[i].source.id == id;
  }

  /** A document whose plan does not write keeps its revisions and their numbers. */
  lemma NumbersUntouched(src: Source, db: Db, now: Db, plans: seq<DocumentPlan>, documentId: Id)
    requires DocumentsPlanned(src, db, plans) && (forall p :: p in plans ==> Carried(db, now, p))
    requires forall id :: id in db.revisions ==> id in now.revisions && now.revisions[id] == db.revisions[id]
    requires forall id :: id in now.revisions ==> id in db.revisions || FromPlan(plans, id)
    requires documentId !in PutIds(plans)
    ensures TargetNumbers(now, documentId) == TargetNumbers(db, documentId)
  {
    hide DocumentPlanFor, NewRevisions, NewNumbers, DocumentsPlanned, Carried, FromPlan, PutIds;
    forall id | id in TargetRevisions(now, documentId) ensures id in db.revisions {
      if id !in db.revisions {
        var doc, i := RevisionOrigin(src, db, now, plans, id);
        RevisionArrives(src, db, now, plans, doc, i);
      }
    }
    SameNumbers(db, now, documentId);
  }

  lemma SameNumbers(db: Db, now: Db, documentId: Id)
    requires TargetRevisions(now, documentId) <= db.revisions.Keys
    requires forall id :: id in db.revisions ==> id in now.revisions && now.revisions[id] == db.revisions[id]
    ensures TargetNumbers(now, documentId) == TargetNumbers(db, documentId)
  {
    forall id | id in TargetNumbers(now, documentId)
      ensures id in TargetNumbers(db, documentId) && TargetNumbers(now, documentId)[id] == TargetNumbers(db, documentId)[id]
    {
      assert id in TargetRevisions(now, documentId);
      assert id in db.revisions;
    }
    forall id | id in TargetNumbers(db, documentId) ensures id in TargetNumbers(now, documentId) {
      assert id in db.revisions;
    }
  }

  /** A document whose plan writes ends up with the target's numbers and the planned ones. */
  lemma NumbersAfterPut(src: Source, db: Db, now: Db, plans: seq<DocumentPlan>, doc: Document)
    requires UniqueRows(src, db) && SharedRowsAgree(src, db)
    requires DocumentsPlanned(src, db, plans) && (forall p :: p in plans ==> Carried(db, now, p))
    requires forall id :: id in db.revisions ==> id in now.revisions && now.revisions[id] == db.revisions[id]
    requires forall id :: id in now.revisions ==> id in db.revisions || FromPlan(plans, id)
    requires doc in src.documents && DocumentPlanFor(src, db, doc).PutDocument?
    ensures |NewNumbers(src, db, doc.id)| == |NewRevisions(src, db, doc.id)|
    ensures TargetNumbers(now, doc.id) ==
      TargetNumbers(db, doc.id) + NumberMap(NewRevisions(src, db, doc.id), NewNumbers(src, db, doc.id))
  {
    hide DocumentPlanFor, NewRevisions, NewNumbers, DocumentsPlanned, Carried, FromPlan, PutIds, NumberMap;
    NewNumbersCount(src, db, doc.id);
    NewRevisionsAre(src, db, doc.id);
    var rows, numbers := NewRevisions(src, db, doc.id), NewNumbers(src, db, doc.id);
    NumberMapHolds(rows, numbers);
    var whole := TargetNumbers(db, doc.id) + NumberMap(rows, numbers);
    forall id | id in TargetNumbers(now, doc.id) ensures id in whole {
      if id !in db.revisions {
        var d, i := RevisionOrigin(src, db, now, plans, id);
        RevisionArrives(src, db, now, plans, d, i);
      }
    }
    forall id | id in whole ensures id in TargetNumbers(now, doc.id) && TargetNumbers(now, doc.id)[id] == whole[id] {
      if id in NumberMap(rows, numbers) {
        var i :| 0 <= i < |rows| && rows[i].id == id;
        RevisionArrives(src, db, now, plans, doc, i);
      }
    }
  }
}
