/** Documents and revisions across planner and applier. */
module HistoryDocuments {
  import opened HistoryTypes
  import opened ImportOrder
  import opened HistoryPlan
  import opened HistoryRevisions
  import opened HistoryOutcome

  predicate SameSlot(x: Document, y: Document) {
    x.issueId == y.issueId && x.key == y.key
  }

  /** The unique keys and indexes of the tables: ids, a document's revision numbers in the source,
      and one document in each (issue, key) slot on either side. */
  ghost predicate UniqueRows(src: Source, db: Db) {
    && UniqueIssueIds(src.issues)
    && DistinctIds(src.revisions) && NumberedOnce(src.revisions)
    && (forall i, j :: 0 <= i < j < |src.documents| ==>
        src.documents[i].id != src.documents[j].id && !SameSlot(src.documents[i], src.documents[j]))
    && (forall a, b :: a in db.documents && b in db.documents && a != b ==> !SameSlot(db.documents[a], db.documents[b]))
  }

  /** A document on both sides is in the same slot, a revision on both sides is of the same document. */
  ghost predicate SharedRowsAgree(src: Source, db: Db) {
    && (forall d :: d in src.documents && d.id in db.documents ==> SameSlot(db.documents[d.id], d))
    && (forall r :: r in src.revisions && r.id in db.revisions ==> db.revisions[r.id].documentId == r.documentId)
  }

  /** What a document plan that writes consists of. */
  lemma PutPlan(src: Source, db: Db, doc: Document)
    requires DocumentPlanFor(src, db, doc).PutDocument?
    ensures |NewNumbers(src, db, doc.id)| == |NewRevisions(src, db, doc.id)|
    ensures var p := DocumentPlanFor(src, db, doc);
      && p.source == doc && doc.issueId in Available(src, db) && (doc.id in db.documents || !KeyTaken(db, doc))
      && p.latestRevisionId == LatestId(db, doc)
      && p.latestRevisionNumber == LatestNumber(db, doc, NewRevisions(src, db, doc.id), NewNumbers(src, db, doc.id))
      && p.createdByAgentId == Kept(doc.createdByAgentId, db.agents) && p.updatedByAgentId == Kept(doc.updatedByAgentId, db.agents)
      && p.revisions == PlannedRevisions(db, NewRevisions(src, db, doc.id), NewNumbers(src, db, doc.id))
  {
    hide NewRevisions, NewNumbers, LatestNumber, LatestId, KeyTaken, Available, AlreadyMatches, PlannedRevisions;
    NewNumbersCount(src, db, doc.id);
  }

  lemma PlannedIds(src: Source, db: Db, documentId: Id)
    requires DistinctIds(src.revisions) && |NewNumbers(src, db, documentId)| == |NewRevisions(src, db, documentId)|
    ensures var planned := PlannedRevisions(db, NewRevisions(src, db, documentId), NewNumbers(src, db, documentId));
      && DistinctRevisions(planned)
      && forall id :: id in RevisionIds(planned) <==>
        id !in TargetRevisions(db, documentId) && exists x :: x in src.revisions && x.id == id && x.documentId == documentId
  {
    NewRevisionsAre(src, db, documentId);
    var rows := NewRevisions(src, db, documentId);
    var planned := PlannedRevisions(db, rows, NewNumbers(src, db, documentId));
    hide NewRevisions, NewNumbers, TargetRevisions;
    forall id | id !in TargetRevisions(db, documentId) && exists x :: x in src.revisions && x.id == id && x.documentId == documentId
      ensures id in RevisionIds(planned)
    {
      var x :| x in src.revisions && x.id == id && x.documentId == documentId;
      var i :| 0 <= i < |rows| && rows[i] == x;
      assert planned[i] in planned;
    }
    forall id | id in RevisionIds(planned)
      ensures id !in TargetRevisions(db, documentId) && exists x :: x in src.revisions && x.id == id && x.documentId == documentId
    {
      var i :| 0 <= i < |planned| && planned[i].source.id == id;
      assert rows[i] in rows;
    }
  }

  lemma NoKeyClash(src: Source, db: Db, doc: Document)
    requires UniqueRows(src, db) && SharedRowsAgree(src, db) && doc in src.documents
    requires doc.id in db.documents || !KeyTaken(db, doc)
    ensures !KeyTaken(db, doc)
  {
    if doc.id in db.documents {
      assert SameSlot(db.documents[doc.id], doc);
      forall id | id in db.documents && id != doc.id ensures !(db.documents[id].issueId == doc.issueId && db.documents[id].key == doc.key) {
        assert !SameSlot(db.documents[id], db.documents[doc.id]);
      }
    }
  }

  lemma FitsTarget(src: Source, db: Db, now: Db, doc: Document)
    requires UniqueRows(src, db) && SharedRowsAgree(src, db) && doc in src.documents
    requires now.issues.Keys == Available(src, db) && now.documents == db.documents && now.revisions == db.revisions
    ensures PlanFits(now, DocumentPlanFor(src, db, doc))
  {
    hide NewRevisions, NewNumbers, DocumentPlanFor, Available;
    var p := DocumentPlanFor(src, db, doc);
    if p.PutDocument? {
      PutPlan(src, db, doc);
      NoKeyClash(src, db, doc);
      PlannedIds(src, db, doc.id);
    }
  }

  lemma ApartInTarget(src: Source, db: Db, x: Document, y: Document)
    requires DistinctIds(src.revisions) && x.id != y.id && !SameSlot(x, y)
    ensures PlansApart(DocumentPlanFor(src, db, x), DocumentPlanFor(src, db, y))
  {
    hide NewRevisions, NewNumbers, DocumentPlanFor, TargetRevisions, PlannedRevisions, RevisionIds;
    var p, q := DocumentPlanFor(src, db, x), DocumentPlanFor(src, db, y);
    if p.PutDocument? && q.PutDocument? {
      PutPlan(src, db, x);
      PutPlan(src, db, y);
      PlannedIds(src, db, x.id);
      PlannedIds(src, db, y.id);
      forall id | id in RevisionIds(p.revisions) ensures id !in RevisionIds(q.revisions) {
        var a :| a in src.revisions && a.id == id && a.documentId == x.id;
        forall b | b in src.revisions && b.id == id ensures b == a {
        }
      }
    }
  }

  /** The planner's document plans never get into each other's way. */
  lemma PlansFit(src: Source, db: Db, now: Db, plans: seq<DocumentPlan>)
    requires UniqueRows(src, db) && SharedRowsAgree(src, db) && DocumentsPlanned(src, db, plans)
    requires now.issues.Keys == Available(src, db) && now.documents == db.documents && now.revisions == db.revisions
    ensures AllApart(now, plans)
  {
    hide DocumentPlanFor, PlanFits, PlansApart, SortedDocuments, Available;
    var docs := SortedDocuments(src);
    SortedDocumentsPermute(src);
    forall p | p in plans ensures PlanFits(now, p) {
      var i :| 0 <= i < |plans| && plans[i] == p;
      assert docs[i] in multiset(docs);
      FitsTarget(src, db, now, docs[i]);
    }
    forall i, j | 0 <= i < j < |plans| ensures PlansApart(plans[i], plans[j]) {
      var a, b := TwoPlaces(src.documents, docs, i, j);
      assert a < b || b < a;
      ApartInTarget(src, db, docs[i], docs[j]);
    }
  }

  lemma SortedDocumentsPermute(src: Source)
    ensures multiset(SortedDocuments(src)) == multiset(src.documents)
    ensures forall d :: d in SortedDocuments(src) <==> d in src.documents
  {
    SortPermutes(src.documents, EarlierDocument);
    SortKeepsMembers(src.documents, EarlierDocument);
  }

  lemma PlanOf(src: Source, db: Db, plans: seq<DocumentPlan>, doc: Document)
    requires DocumentsPlanned(src, db, plans) && doc in src.documents
    ensures DocumentPlanFor(src, db, doc) in plans
  {
    hide DocumentPlanFor, SortedDocuments;
    SortedDocumentsPermute(src);
    var i :| 0 <= i < |src.documents| && SortedDocuments(src)[i] == doc;
    assert plans[i] == DocumentPlanFor(src, db, doc);
  }

  lemma PlanSource(src: Source, db: Db, plans: seq<DocumentPlan>, p: DocumentPlan)
    requires DocumentsPlanned(src, db, plans) && p in plans
    ensures p.source in src.documents && p == DocumentPlanFor(src, db, p.source)
  {
    hide SortedDocuments, NewRevisions, NewNumbers, LatestNumber, LatestId, KeyTaken, Available, AlreadyMatches, PlannedRevisions;
    SortedDocumentsPermute(src);
    var i :| 0 <= i < |plans| && plans[i] == p;
    assert SortedDocuments(src)[i] in SortedDocuments(src);
    NewNumbersCount(src, db, SortedDocuments(src)[i].id);
  }
}
