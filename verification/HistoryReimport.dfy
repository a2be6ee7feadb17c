/** Latest revisions, revision numbers, and importing twice. */
module HistoryReimport {
  import opened HistoryTypes
  import opened ImportOrder
  import opened Revisions
  import opened HistoryPlan
  import opened HistoryRevisions
  import opened HistoryApply
  import opened HistoryOutcome
  import opened HistoryClosure
  import opened HistoryDocuments
  import opened HistoryTheorems
  import opened Optional

  /** Each document's latest revision is one of its own, and the number on the document is its number. */
  ghost predicate LatestConsistent(db: Db) {
    forall id :: id in db.documents ==> LatestFits(db, id, db.documents[id])
  }

  ghost predicate LatestFits(db: Db, id: Id, row: Document) {
    row.latestRevisionId.Some? ==>
      var latest := row.latestRevisionId.value;
      latest in TargetRevisions(db, id) && row.latestRevisionNumber == TargetNumbers(db, id)[latest]
  }

  ghost predicate SourceLatestExist(src: Source) {
    forall d :: d in src.documents && d.latestRevisionId.Some? ==>
      exists r :: r in src.revisions && r.id == d.latestRevisionId.value && r.documentId == d.id
  }

  /** A document's row after its plan was carried out. */
  lemma RowAfterPut(src: Source, db: Db, now: Db, plans: seq<DocumentPlan>, doc: Document)
    requires DocumentsPlanned(src, db, plans) && (forall p :: p in plans ==> Carried(db, now, p))
    requires doc in src.documents && DocumentPlanFor(src, db, doc).PutDocument?
    ensures |NewNumbers(src, db, doc.id)| == |NewRevisions(src, db, doc.id)|
    ensures doc.id in now.documents && doc.id in PutIds(plans)
    ensures var row := now.documents[doc.id];
      && SameSlot(row, doc) && row.content == doc.content && row.updatedByUser == doc.updatedByUser
      && row.updatedAt == doc.updatedAt && row.linkUpdatedAt == doc.linkUpdatedAt
      && row.updatedByAgentId == Kept(doc.updatedByAgentId, db.agents)
      && row.latestRevisionId == LatestId(db, doc)
      && row.latestRevisionNumber == LatestNumber(db, doc, NewRevisions(src, db, doc.id), NewNumbers(src, db, doc.id))
  {
    hide DocumentPlanFor, NewRevisions, NewNumbers, DocumentsPlanned, LatestId, LatestNumber, PlannedRevisions;
    PlanOf(src, db, plans, doc);
    PutPlan(src, db, doc);
    var p := DocumentPlanFor(src, db, doc);
    assert Carried(db, now, p);
  }

  lemma PutSource(src: Source, db: Db, plans: seq<DocumentPlan>, id: Id) returns (doc: Document)
    requires DocumentsPlanned(src, db, plans) && id in PutIds(plans)
    ensures doc in src.documents && doc.id == id && DocumentPlanFor(src, db, doc).PutDocument?
  {
    hide DocumentPlanFor, DocumentsPlanned;
    var p :| p in plans && p.PutDocument? && p.source.id == id;
    PlanSource(src, db, plans, p);
    doc := p.source;
  }

  lemma LatestArrives(src: Source, db: Db, doc: Document)
    requires DistinctIds(src.revisions) && LatestConsistent(db) && SourceLatestExist(src) && doc in src.documents
    requires LatestId(db, doc).Some?
    ensures var latest := LatestId(db, doc).value;
      latest in TargetRevisions(db, doc.id) || exists r :: r in NewRevisions(src, db, doc.id) && r.id == latest
  {
    hide NewRevisions, TargetNumbers;
    NewRevisionsAre(src, db, doc.id);
    if doc.latestRevisionId.Some? {
      var r :| r in src.revisions && r.id == doc.latestRevisionId.value && r.documentId == doc.id;
      assert r.id !in TargetRevisions(db, doc.id) ==> r in NewRevisions(src, db, doc.id);
    }
  }

  /** The plan's latest revision number is the one its latest revision id ends up with, and at
      the end every document's latest revision exists. */
  lemma LatestStaysConsistent(src: Source, db: Db, opts: Options, order: seq<Issue>, plan: Plan, bodies: Attachment -> bool)
    requires UniqueRows(src, db) && SharedRowsAgree(src, db) && IsPlan(src, db, opts, order, plan)
    requires LatestConsistent(db) && SourceLatestExist(src)
    ensures LatestConsistent(Applied(db, plan, bodies))
  {
    hide Applied, DocumentPlanFor, NewRevisions, NewNumbers, DocumentsPlanned, Carried, FromPlan, PutIds, TargetNumbers, UniqueRows, SharedRowsAgree;
    DocumentsEnd(src, db, opts, order, plan, bodies);
    var now, plans := Applied(db, plan, bodies), plan.documents;
    assert DistinctIds(src.revisions) by { UniqueRevisionIds(src, db); }
    forall id | id in now.documents ensures LatestFits(now, id, now.documents[id]) {
      SameKeys(db, now, id);
      if now.documents[id].latestRevisionId == None {
      } else if id in PutIds(plans) {
        var doc := PutSource(src, db, plans, id);
        RowAfterPut(src, db, now, plans, doc);
        NumbersAfterPut(src, db, now, plans, doc);
        LatestArrives(src, db, doc);
        LatestNumberFound(src, db, now, doc);
      } else {
        NumbersUntouched(src, db, now, plans, id);
      }
    }
  }

  lemma UniqueRevisionIds(src: Source, db: Db)
    requires UniqueRows(src, db)
    ensures DistinctIds(src.revisions)
  {
  }

  lemma SameKeys(db: Db, now: Db, id: Id)
    ensures TargetNumbers(now, id).Keys == TargetRevisions(now, id) && TargetNumbers(db, id).Keys == TargetRevisions(db, id)
  {
  }

  lemma LatestNumberFound(src: Source, db: Db, now: Db, doc: Document)
    requires DistinctIds(src.revisions) && |NewNumbers(src, db, doc.id)| == |NewRevisions(src, db, doc.id)|
    requires TargetNumbers(now, doc.id) ==
      TargetNumbers(db, doc.id) + NumberMap(NewRevisions(src, db, doc.id), NewNumbers(src, db, doc.id))
    requires LatestId(db, doc).Some?
    requires LatestId(db, doc).value in TargetRevisions(db, doc.id) || exists r :: r in NewRevisions(src, db, doc.id) && r.id == LatestId(db, doc).value
    ensures var latest := LatestId(db, doc).value;
      && latest in TargetRevisions(now, doc.id)
      && LatestNumber(db, doc, NewRevisions(src, db, doc.id), NewNumbers(src, db, doc.id)) == TargetNumbers(now, doc.id)[latest]
  {
    hide NewRevisions, NewNumbers, LatestId, NumberMap;
    NewRevisionsAre(src, db, doc.id);
    NumberMapHolds(NewRevisions(src, db, doc.id), NewNumbers(src, db, doc.id));
    SameKeys(db, now, doc.id);
    assert LatestId(db, doc).value in TargetNumbers(now, doc.id);
  }

  ghost predicate RevisionNumbersUnique(db: Db, documentId: Id) {
    forall a, b :: a in TargetRevisions(db, documentId) && b in TargetRevisions(db, documentId) && a != b ==>
      db.revisions[a].number != db.revisions[b].number
  }

  /** No document's revisions get a number twice, unless it had one twice. */
  lemma RevisionNumbersStayUnique(
    src: Source, db: Db, opts: Options, order: seq<Issue>, plan: Plan, bodies: Attachment -> bool, documentId: Id)
    requires UniqueRows(src, db) && SharedRowsAgree(src, db) && IsPlan(src, db, opts, order, plan)
    ensures RevisionNumbersUnique(Applied(db, plan, bodies), documentId) <==> RevisionNumbersUnique(db, documentId)
  {
    hide Applied, DocumentPlanFor, NewRevisions, NewNumbers, DocumentsPlanned, Carried, FromPlan, PutIds, UniqueRows, SharedRowsAgree, UsedNumbers, NumberMap;
    DocumentsEnd(src, db, opts, order, plan, bodies);
    var now, plans := Applied(db, plan, bodies), plan.documents;
    if documentId in PutIds(plans) {
      var doc := PutSource(src, db, plans, documentId);
      NumbersAfterPut(src, db, now, plans, doc);
      UniqueRevisionIds(src, db);
      PutKeepsUnique(src, db, now, documentId);
    } else {
      NumbersUntouched(src, db, now, plans, documentId);
      ByNumbers(db, documentId);
      ByNumbers(now, documentId);
    }
  }

  ghost predicate Injective(numbers: map<Id, int>) {
    forall a, b :: a in numbers && b in numbers && a != b ==> numbers[a] != numbers[b]
  }

  lemma ByNumbers(db: Db, documentId: Id)
    ensures RevisionNumbersUnique(db, documentId) <==> Injective(TargetNumbers(db, documentId))
  {
    if RevisionNumbersUnique(db, documentId) {
      forall a, b | a in TargetNumbers(db, documentId) && b in TargetNumbers(db, documentId) && a != b
        ensures TargetNumbers(db, documentId)[a] != TargetNumbers(db, documentId)[b] {
      }
    }
    if Injective(TargetNumbers(db, documentId)) {
      forall a, b | a in TargetRevisions(db, documentId) && b in TargetRevisions(db, documentId) && a != b
        ensures db.revisions[a].number != db.revisions[b].number {
        assert TargetNumbers(db, documentId)[a] != TargetNumbers(db, documentId)[b];
      }
    }
  }

  lemma PutKeepsUnique(src: Source, db: Db, now: Db, documentId: Id)
    requires DistinctIds(src.revisions) && |NewNumbers(src, db, documentId)| == |NewRevisions(src, db, documentId)|
    requires TargetNumbers(now, documentId) ==
      TargetNumbers(db, documentId) + NumberMap(NewRevisions(src, db, documentId), NewNumbers(src, db, documentId))
    ensures RevisionNumbersUnique(now, documentId) <==> RevisionNumbersUnique(db, documentId)
  {
    ByNumbers(db, documentId);
    ByNumbers(now, documentId);
    NewRevisionsAre(src, db, documentId);
    var rows, numbers := NewRevisions(src, db, documentId), NewNumbers(src, db, documentId);
    NumberMapHolds(rows, numbers);
    PlannedNumbersDistinct(src, db, documentId);
    UsedAreNumbers(db, documentId);
    AddsDistinct(TargetNumbers(db, documentId), rows, numbers);
  }

  lemma UsedAreNumbers(db: Db, documentId: Id)
    ensures TargetNumbers(db, documentId).Keys == TargetRevisions(db, documentId)
    ensures forall id :: id in TargetNumbers(db, documentId) ==> TargetNumbers(db, documentId)[id] in UsedNumbers(db, documentId)
  {
  }

  lemma AddsDistinct(before: map<Id, int>, rows: seq<Revision>, numbers: seq<int>)
    requires |rows| == |numbers| && DistinctIds(rows) && Distinct(numbers)
    requires forall r :: r in rows ==> r.id !in before
    requires forall id :: id in before ==> before[id] !in numbers
    ensures Injective(before + NumberMap(rows, numbers)) <==> Injective(before)
  {
    hide NumberMap;
    NumberMapHolds(rows, numbers);
    var added := NumberMap(rows, numbers);
    var whole := before + added;
    if Injective(before) {
      forall a, b | a in whole && b in whole && a != b ensures whole[a] != whole[b] {
        if a in added && b in added {
          var i :| 0 <= i < |rows| && rows[i].id == a;
          var j :| 0 <= j < |rows| && rows[j].id == b;
          assert i < j || j < i;
        } else if a in added {
          var i :| 0 <= i < |rows| && rows[i].id == a;
          assert numbers[i] in numbers;
        } else if b in added {
          var j :| 0 <= j < |rows| && rows[j].id == b;
          assert numbers[j] in numbers;
        }
      }
    }
    if Injective(whole) {
      forall i | 0 <= i < |rows| ensures rows[i].id !in before {
        assert rows[i] in rows;
      }
      forall a, b | a in before && b in before && a != b ensures before[a] != before[b] {
        assert whole[a] == before[a] && whole[b] == before[b];
      }
    }
  }

  // ----- importing the same source again -----

  lemma SkipsWhenMatching(src: Source, now: Db, doc: Document)
    requires doc.id in now.documents && NewRevisions(src, now, doc.id) == []
    requires AlreadyMatches(now.documents[doc.id], doc, LatestId(now, doc), LatestNumber(now, doc, [], []), Kept(doc.updatedByAgentId, now.agents))
    ensures DocumentPlanFor(src, now, doc).SkipDocument?
  {
    hide AlreadyMatches, LatestNumber, LatestId, NewRevisions, NewNumbers, KeyTaken, Available;
    NewNumbersCount(src, now, doc.id);
  }

  /** A plan that found nothing to do has nothing to do later either. */
  lemma StaysSkipped(src: Source, db: Db, now: Db, doc: Document)
    requires doc.id in db.documents && doc.id in now.documents && now.documents[doc.id] == db.documents[doc.id] && now.agents == db.agents
    requires TargetNumbers(now, doc.id) == TargetNumbers(db, doc.id)
    requires DocumentPlanFor(src, db, doc) == SkipDocument(doc, Existing)
    ensures DocumentPlanFor(src, now, doc).SkipDocument?
  {
    hide KeyTaken, Available, AlreadyMatches, NumberMap, TargetNumbers;
    NewNumbersCount(src, db, doc.id);
    SameKeys(db, now, doc.id);
    assert NewRevisions(src, now, doc.id) == NewRevisions(src, db, doc.id);
    hide NewRevisions, NewNumbers;
    SkipsWhenMatching(src, now, doc);
  }

  lemma NothingNew(src: Source, db: Db, now: Db, documentId: Id)
    requires DistinctIds(src.revisions) && |NewNumbers(src, db, documentId)| == |NewRevisions(src, db, documentId)|
    requires TargetNumbers(now, documentId) ==
      TargetNumbers(db, documentId) + NumberMap(NewRevisions(src, db, documentId), NewNumbers(src, db, documentId))
    ensures NewRevisions(src, now, documentId) == []
  {
    hide NewRevisions, NewNumbers, NumberMap, TargetNumbers;
    NewRevisionsAre(src, db, documentId);
    NewRevisionsAre(src, now, documentId);
    NumberMapHolds(NewRevisions(src, db, documentId), NewNumbers(src, db, documentId));
    SameKeys(db, now, documentId);
    var again := NewRevisions(src, now, documentId);
    forall x | x in src.revisions && x.documentId == documentId ensures x.id in TargetRevisions(now, documentId) {
      if x.id !in TargetRevisions(db, documentId) {
        var i :| 0 <= i < |NewRevisions(src, db, documentId)| && NewRevisions(src, db, documentId)[i] == x;
      }
    }
    SomeMember(again);
  }

  lemma PutThenMatches(src: Source, db: Db, now: Db, plans: seq<DocumentPlan>, doc: Document)
    requires UniqueRows(src, db) && SharedRowsAgree(src, db) && now.agents == db.agents
    requires DocumentsPlanned(src, db, plans) && (forall p :: p in plans ==> Carried(db, now, p))
    requires forall id :: id in db.revisions ==> id in now.revisions && now.revisions[id] == db.revisions[id]
    requires forall id :: id in now.revisions ==> id in db.revisions || FromPlan(plans, id)
    requires doc in src.documents && DocumentPlanFor(src, db, doc).PutDocument?
    ensures DocumentPlanFor(src, now, doc).SkipDocument?
  {
    hide DocumentPlanFor, NewRevisions, NewNumbers, DocumentsPlanned, Carried, FromPlan, PutIds, TargetNumbers, UniqueRows, SharedRowsAgree;
    RowAfterPut(src, db, now, plans, doc);
    NumbersAfterPut(src, db, now, plans, doc);
    UniqueRevisionIds(src, db);
    NothingNew(src, db, now, doc.id);
    assert LatestId(now, doc) == LatestId(db, doc);
    assert TargetNumbers(now, doc.id) + NumberMap([], []) == TargetNumbers(now, doc.id);
    SkipsWhenMatching(src, now, doc);
  }

  lemma OneWithId(src: Source, db: Db, doc: Document)
    requires UniqueRows(src, db) && doc in src.documents
    ensures forall d :: d in src.documents && d.id == doc.id ==> d == doc
  {
    forall d | d in src.documents && d.id == doc.id ensures d == doc {
      var i :| 0 <= i < |src.documents| && src.documents[i] == d;
      var j :| 0 <= j < |src.documents| && src.documents[j] == doc;
      assert i == j || i < j || j < i;
    }
  }

  lemma ConflictRemains(src: Source, db: Db, now: Db, plans: seq<DocumentPlan>, doc: Document)
    requires UniqueRows(src, db) && SharedRowsAgree(src, db)
    requires DocumentsPlanned(src, db, plans) && (forall p :: p in plans ==> Carried(db, now, p))
    requires now.documents.Keys == db.documents.Keys + PutIds(plans)
    requires forall id :: id in db.documents && id !in PutIds(plans) ==> now.documents[id] == db.documents[id]
    requires doc in src.documents && doc.id !in db.documents && KeyTaken(db, doc)
    requires DocumentPlanFor(src, db, doc).SkipDocument?
    ensures DocumentPlanFor(src, now, doc).SkipDocument?
  {
    hide NewRevisions, NewNumbers, DocumentsPlanned, Carried, PutIds;
    OneWithId(src, db, doc);
    if doc.id in PutIds(plans) {
      var d := PutSource(src, db, plans, doc.id);
    }
    var id :| id in db.documents && db.documents[id].issueId == doc.issueId && db.documents[id].key == doc.key && id != doc.id;
    if id in PutIds(plans) {
      var d := PutSource(src, db, plans, id);
      RowAfterPut(src, db, now, plans, d);
      assert SameSlot(db.documents[id], d);
    }
    assert KeyTaken(now, doc);
  }

  lemma DocumentsSkipped(src: Source, db: Db, opts: Options, order: seq<Issue>, plan: Plan, bodies: Attachment -> bool, doc: Document)
    requires UniqueRows(src, db) && SharedRowsAgree(src, db) && IsPlan(src, db, opts, order, plan) && doc in src.documents
    ensures DocumentPlanFor(src, Applied(db, plan, bodies), doc).SkipDocument?
  {
    DocumentsEnd(src, db, opts, order, plan, bodies);
    FinalTables(db, plan, bodies);
    IssuesStay(src, db, opts, order, plan, bodies);
    hide Applied, NewRevisions, NewNumbers, DocumentsPlanned, Carried, FromPlan, PutIds, UniqueRows, SharedRowsAgree, Available, PlanWith, KeyTaken, NewCount, IsImportOrder;
    var now, plans := Applied(db, plan, bodies), plan.documents;
    var first := DocumentPlanFor(src, db, doc);
    if doc.issueId !in Available(src, db) {
    } else if first.PutDocument? {
      PutThenMatches(src, db, now, plans, doc);
    } else if doc.id !in db.documents && KeyTaken(db, doc) {
      ConflictRemains(src, db, now, plans, doc);
    } else {
      NotPut(src, db, plans, doc);
      SkippedAsExisting(src, db, doc);
      NumbersUntouched(src, db, now, plans, doc.id);
      StaysSkipped(src, db, now, doc);
    }
  }

  lemma SkippedAsExisting(src: Source, db: Db, doc: Document)
    requires DocumentPlanFor(src, db, doc).SkipDocument? && doc.issueId in Available(src, db)
    requires doc.id in db.documents || !KeyTaken(db, doc)
    ensures doc.id in db.documents && DocumentPlanFor(src, db, doc) == SkipDocument(doc, Existing)
  {
    hide NewRevisions, NewNumbers, LatestNumber, LatestId, AlreadyMatches, KeyTaken, Available;
    NewNumbersCount(src, db, doc.id);
  }

  lemma NotPut(src: Source, db: Db, plans: seq<DocumentPlan>, doc: Document)
    requires UniqueRows(src, db) && DocumentsPlanned(src, db, plans)
    requires doc in src.documents && DocumentPlanFor(src, db, doc).SkipDocument?
    ensures doc.id !in PutIds(plans)
  {
    hide DocumentPlanFor, DocumentsPlanned;
    OneWithId(src, db, doc);
    if doc.id in PutIds(plans) {
      var d := PutSource(src, db, plans, doc.id);
    }
  }

  lemma IssuesStay(src: Source, db: Db, opts: Options, order: seq<Issue>, plan: Plan, bodies: Attachment -> bool)
    requires UniqueIssueIds(src.issues) && IsPlan(src, db, opts, order, plan)
    ensures Applied(db, plan, bodies).issues.Keys == Available(src, db) == Available(src, Applied(db, plan, bodies))
  {
    hide Applied, IsPlan, NewInserts, InsertedIds;
    PreviewEqualsApply(src, db, opts, order, plan, bodies);
  }

  /** Nothing in this plan writes, except attachments whose object was missing and still is. */
  ghost predicate PlansNothing(plan: Plan, bodies: Attachment -> bool) {
    && plan.projects == []
    && (forall p :: p in plan.issues ==> p.SkipIssue?)
    && (forall p :: p in plan.comments ==> p.SkipComment?)
    && (forall p :: p in plan.documents ==> p.SkipDocument?)
    && (forall p :: p in plan.attachments && p.InsertAttachment? ==> !bodies(p.source))
  }

  lemma ProjectsSkipped(src: Source, db: Db, opts: Options, plan: Plan, now: Db, again: seq<ProjectImport>)
    requires ProjectsPlanned(src, db, opts, plan.projects) && ProjectsPlanned(src, now, opts, again)
    requires now.projects == AfterProjects(db, plan).projects
    ensures again == []
  {
    ImportsArrive(src, db, opts, plan);
    forall p | p in again ensures Imports(src, now, opts, p.project.id) && Imports(src, db, opts, p.project.id) {
      assert ImportFor(src, now, opts, p.project.id) == Some(p);
    }
    SomeMember(again);
  }

  lemma IssuesSkipped(src: Source, now: Db, opts: Options, order: seq<Issue>, plans: seq<IssuePlan>)
    requires UniqueIssueIds(src.issues) && multiset(order) == multiset(src.issues) && IssuesPlanned(src, now, opts, order, plans)
    requires IssueIds(src.issues) <= now.issues.Keys
    ensures forall p :: p in plans ==> p.SkipIssue?
  {
    OrderIsUnique(src, order);
    forall p | p in plans ensures p.SkipIssue? {
      var k :| 0 <= k < |plans| && plans[k] == p;
      PlannedAction(src, now, opts, order, plans, k);
      assert order[k] in order;
    }
  }

  lemma CommentsSkipped(src: Source, db: Db, opts: Options, plan: Plan, now: Db, again: seq<CommentPlan>)
    requires CommentsPlanned(src, db, opts, plan.comments) && CommentsPlanned(src, now, opts, again)
    requires AfterIssues(db, plan).issues.Keys == Available(src, db) == Available(src, now)
    requires now.comments == AfterComments(db, plan).comments
    ensures forall p :: p in again ==> p.SkipComment?
  {
    CommentPlansAre(src, db, opts, plan.comments);
    CommentPlansAre(src, now, opts, again);
    hide Available, AfterIssues, CommentsPlanned;
    StagesAgree(db, plan);
    CommentsStage(db, plan);
    forall p | p in again ensures p.SkipComment? {
      var c := p.source;
      if CommentPlanFor(src, db, c).InsertComment? {
        assert CommentAvailable(src, db, opts, c.id);
        CommentsThere(src, db, opts, plan, c.id);
      }
    }
  }

  lemma AttachmentsSkipped(
    src: Source, db: Db, opts: Options, plan: Plan, bodies: Attachment -> bool, now: Db, again: seq<AttachmentPlan>)
    requires AttachmentsPlanned(src, db, opts, plan.attachments) && AttachmentsPlanned(src, now, opts, again)
    requires now == Applied(db, plan, bodies) && now.issues.Keys == Available(src, db) == Available(src, now)
    ensures forall p :: p in again && p.InsertAttachment? ==> !bodies(p.source)
  {
    FinalTables(db, plan, bodies);
    AttachmentsArrive(db, plan, bodies);
    AttachmentPlansAre(src, db, opts, plan.attachments);
    AttachmentPlansAre(src, now, opts, again);
    hide Available, Applied, CommentAvailable, AttachmentsPlanned;
    forall p | p in again && p.InsertAttachment? ensures !bodies(p.source) {
      var a := p.source;
      PlannedBefore(src, db, now, opts, a);
      assert AttachmentPlanFor(src, db, opts, a) in plan.attachments;
    }
  }

  lemma PlannedBefore(src: Source, db: Db, now: Db, opts: Options, a: Attachment)
    requires AttachmentPlanFor(src, now, opts, a).InsertAttachment?
    requires Available(src, db) == Available(src, now) && db.attachments.Keys <= now.attachments.Keys
    ensures var p := AttachmentPlanFor(src, db, opts, a);
      p.InsertAttachment? && p.source == a && a.id !in now.attachments && a.issueId in Available(src, now)
  {
  }

  predicate Attachable(db: Db, now: Db, p: AttachmentPlan, bodies: Attachment -> bool) {
    p.InsertAttachment? && p.source.id !in db.attachments && p.source.issueId in now.issues && bodies(p.source)
  }

  lemma AttachmentsArrive(db: Db, plan: Plan, bodies: Attachment -> bool)
    ensures var now := Applied(db, plan, bodies);
      forall p :: p in plan.attachments && Attachable(db, now, p, bodies) ==> p.source.id in now.attachments
  {
    hide AfterComments;
    DocumentsFrame(AfterComments(db, plan), plan.documents);
    StagesAgree(db, plan);
    var before := AfterDocuments(db, plan);
    hide AfterDocuments;
    AttachmentsOutcome(before, plan.attachments, before.attachments.Keys, bodies);
  }

  /** Planning again from the same source finds nothing to write. */
  lemma ReimportPlansNothing(
    src: Source, db: Db, opts: Options, order: seq<Issue>, plan: Plan, bodies: Attachment -> bool,
    again: seq<Issue>, second: Plan)
    requires UniqueRows(src, db) && SharedRowsAgree(src, db)
    requires IsPlan(src, db, opts, order, plan) && IsPlan(src, Applied(db, plan, bodies), opts, again, second)
    ensures PlansNothing(second, bodies)
  {
    IssuesStay(src, db, opts, order, plan, bodies);
    FinalTables(db, plan, bodies);
    hide Applied, AfterIssues, AfterComments, AfterDocuments, AfterProjects;
    hide ProjectsPlanned, IssuesPlanned, CommentsPlanned, DocumentsPlanned, AttachmentsPlanned, DocumentPlanFor, NewCount;
    var now := Applied(db, plan, bodies);
    ProjectsSkipped(src, db, opts, plan, now, second.projects);
    IssuesSkipped(src, now, opts, again, second.issues);
    CommentsSkipped(src, db, opts, plan, now, second.comments);
    AttachmentsSkipped(src, db, opts, plan, bodies, now, second.attachments);
    forall p | p in second.documents ensures p.SkipDocument? {
      PlanSource(src, now, second.documents, p);
      DocumentsSkipped(src, db, opts, order, plan, bodies, p.source);
    }
  }

  lemma {:induction false} SkippedCommentsWrite(db: Db, plans: seq<CommentPlan>, existing: set<Id>)
    requires forall p :: p in plans ==> p.SkipComment?
    ensures CommentsApplied(db, plans, existing) == db
  {
    if |plans| > 0 {
      assert plans[|plans| - 1] in plans;
      SkippedCommentsWrite(db, plans[..|plans| - 1], existing);
    }
  }

  lemma {:induction false} SkippedDocumentsWrite(db: Db, plans: seq<DocumentPlan>)
    requires forall p :: p in plans ==> p.SkipDocument?
    ensures DocumentsApplied(db, plans) == db
  {
    if |plans| > 0 {
      assert plans[|plans| - 1] in plans;
      SkippedDocumentsWrite(db, plans[..|plans| - 1]);
    }
  }

  lemma {:induction false} MissingObjectsWrite(db: Db, plans: seq<AttachmentPlan>, existing: set<Id>, bodies: Attachment -> bool)
    requires forall p :: p in plans && p.InsertAttachment? ==> !bodies(p.source)
    ensures AttachmentsApplied(db, plans, existing, bodies) == db
  {
    if |plans| > 0 {
      assert plans[|plans| - 1] in plans;
      MissingObjectsWrite(db, plans[..|plans| - 1], existing, bodies);
    }
  }

  lemma NothingPlannedNothingWritten(db: Db, plan: Plan, bodies: Attachment -> bool)
    requires PlansNothing(plan, bodies)
    ensures Applied(db, plan, bodies) == db
  {
    SomeMember(NewInserts(plan.issues, db.issues.Keys));
    NoIssuesApplied(db);
    SkippedCommentsWrite(db, plan.comments, db.comments.Keys);
    SkippedDocumentsWrite(db, plan.documents);
    MissingObjectsWrite(db, plan.attachments, db.attachments.Keys, bodies);
  }

  /** Importing the same source twice leaves the target as importing it once. */
  lemma ImportIsIdempotent(
    src: Source, db: Db, opts: Options, order: seq<Issue>, plan: Plan, bodies: Attachment -> bool,
    again: seq<Issue>, second: Plan)
    requires UniqueRows(src, db) && SharedRowsAgree(src, db)
    requires IsPlan(src, db, opts, order, plan) && IsPlan(src, Applied(db, plan, bodies), opts, again, second)
    ensures Applied(Applied(db, plan, bodies), second, bodies) == Applied(db, plan, bodies)
  {
    hide Applied, IsPlan, UniqueRows, SharedRowsAgree;
    ReimportPlansNothing(src, db, opts, order, plan, bodies, again, second);
    NothingPlannedNothingWritten(Applied(db, plan, bodies), second, bodies);
  }

  /** Running the command twice: the second plan is empty and the database stays as it was. */
  method ImportTwice(target: Target, src: Source, opts: Options, bodies: Attachment -> bool) returns (plan: Plan, second: Plan)
    requires UniqueRows(src, target.db) && SharedRowsAgree(src, target.db)
    requires Acyclic(ById(src.issues)) && ParentsInSource(src)
    requires target.Valid() && TablesClosed(target.start)
    modifies target
    ensures PlansNothing(second, bodies)
    ensures target.Valid() && target.db == Applied(old(target.db), plan, bodies)
  {
    hide SharedRowsAgree, IsPlan, TablesClosed, Applied, PlansNothing, Replay, Legal;
    ghost var db := target.db;
    ghost var order, again;
    plan, order := ImportHistory(target, src, opts, bodies);
    second, again := ImportHistory(target, src, opts, bodies);
    ReimportPlansNothing(src, db, opts, order, plan, bodies, again, second);
    ImportIsIdempotent(src, db, opts, order, plan, bodies, again, second);
  }
}
