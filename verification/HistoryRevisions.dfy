/** The numbers that imported document revisions get, in terms of the source's own rows. */
module HistoryRevisions {
  import opened HistoryTypes
  import opened Revisions
  import opened HistoryPlan

  ghost predicate DistinctIds(rows: seq<Revision>) {
    forall i, j :: 0 <= i < j < |rows| ==> rows[i].id != rows[j].id
  }

  /** The unique index on document and revision number. */
  ghost predicate NumberedOnce(rows: seq<Revision>) {
    forall i, j :: 0 <= i < j < |rows| && rows[i].documentId == rows[j].documentId ==> rows[i].number != rows[j].number
  }

  lemma {:induction false} RevisionsOfDistinct(rows: seq<Revision>, documentId: Id)
    requires DistinctIds(rows)
    ensures DistinctIds(RevisionsOf(rows, documentId))
  {
    if |rows| > 0 {
      var front, last := rows[..|rows| - 1], rows[|rows| - 1];
      RevisionsOfDistinct(front, documentId);
      forall x | x in RevisionsOf(front, documentId) ensures x.id != last.id {
        assert x in front;
      }
    }
  }

  lemma SortedDistinct(rows: seq<Revision>, le: (Revision, Revision) -> bool)
    requires DistinctIds(rows)
    ensures DistinctIds(SortedRows(rows, le))
  {
    var order := SortedRows(rows, le);
    SortPermutes(rows, le);
    forall i, j | 0 <= i < j < |order| ensures order[i].id != order[j].id {
      var a, b := TwoPlaces(rows, order, i, j);
    }
  }

  lemma {:induction false} FreshMembers(rows: seq<Revision>, existing: set<Id>)
    ensures forall x :: x in Fresh(rows, existing) <==> x in rows && x.id !in existing
  {
    if |rows| > 0 {
      var front := rows[..|rows| - 1];
      FreshMembers(front, existing);
      assert rows == front + [rows[|rows| - 1]];
    }
  }

  lemma {:induction false} FreshDistinct(rows: seq<Revision>, existing: set<Id>)
    requires DistinctIds(rows)
    ensures DistinctIds(Fresh(rows, existing))
  {
    if |rows| > 0 {
      var front := rows[..|rows| - 1];
      FreshDistinct(front, existing);
      FreshMembers(front, existing);
    }
  }

  lemma {:induction false} FreshSorted(rows: seq<Revision>, existing: set<Id>)
    requires IsSorted(rows, LowerRevision)
    ensures IsSorted(Fresh(rows, existing), LowerRevision)
  {
    if |rows| > 0 {
      var front := rows[..|rows| - 1];
      FreshSorted(front, existing);
      FreshMembers(front, existing);
    }
  }

  lemma NewRevisionsAre(src: Source, db: Db, documentId: Id)
    requires DistinctIds(src.revisions)
    ensures DistinctIds(NewRevisions(src, db, documentId))
    ensures forall x :: x in NewRevisions(src, db, documentId) <==>
      x in src.revisions && x.documentId == documentId && x.id !in TargetRevisions(db, documentId)
  {
    var mine := RevisionsOf(src.revisions, documentId);
    RevisionsOfDistinct(src.revisions, documentId);
    SortedDistinct(mine, LowerRevision);
    SortKeepsMembers(mine, LowerRevision);
    FreshMembers(SortedRows(mine, LowerRevision), TargetRevisions(db, documentId));
    FreshDistinct(SortedRows(mine, LowerRevision), TargetRevisions(db, documentId));
  }

  lemma NewRevisionsSorted(src: Source, db: Db, documentId: Id)
    ensures IsSorted(NewRevisions(src, db, documentId), LowerRevision)
  {
    var mine := RevisionsOf(src.revisions, documentId);
    SortSorts(mine, LowerRevision);
    FreshSorted(SortedRows(mine, LowerRevision), TargetRevisions(db, documentId));
  }

  /** Planned numbers are pairwise distinct and none is in use in the target. */
  lemma PlannedNumbersDistinct(src: Source, db: Db, documentId: Id)
    ensures |NewNumbers(src, db, documentId)| == |NewRevisions(src, db, documentId)|
    ensures Distinct(NewNumbers(src, db, documentId))
    ensures forall n :: n in NewNumbers(src, db, documentId) ==> n !in UsedNumbers(db, documentId)
  {
    var used := UsedNumbers(db, documentId);
    NumbersDistinct(NumbersOf(NewRevisions(src, db, documentId)), used, MaxOf(used + {0}) + 1);
  }

  lemma NewNumberedOnce(src: Source, db: Db, documentId: Id)
    requires DistinctIds(src.revisions) && NumberedOnce(src.revisions)
    ensures Distinct(NumbersOf(NewRevisions(src, db, documentId)))
  {
    NewRevisionsAre(src, db, documentId);
    hide NewRevisions, TargetRevisions;
    var rows := NewRevisions(src, db, documentId);
    forall i, j | 0 <= i < j < |rows| ensures rows[i].number != rows[j].number {
      assert rows[i] in rows && rows[j] in rows && rows[i].id != rows[j].id;
      var a :| 0 <= a < |src.revisions| && src.revisions[a] == rows[i];
      var b :| 0 <= b < |src.revisions| && src.revisions[b] == rows[j];
      assert a < b || b < a;
    }
  }

  /** No import lowers a revision's number. */
  lemma PlannedNumbersNeverLower(src: Source, db: Db, documentId: Id)
    requires DistinctIds(src.revisions) && NumberedOnce(src.revisions)
    ensures |NewNumbers(src, db, documentId)| == |NewRevisions(src, db, documentId)|
    ensures forall i :: 0 <= i < |NewNumbers(src, db, documentId)| ==>
      NewNumbers(src, db, documentId)[i] >= NewRevisions(src, db, documentId)[i].number
  {
    var used, numbers := UsedNumbers(db, documentId), NumbersOf(NewRevisions(src, db, documentId));
    NewNumberedOnce(src, db, documentId);
    NeverLower(numbers, used, MaxOf(used + {0}) + 1);
  }

  /** When the target's numbers are exactly 1..m, the imported ones keep the source's order. */
  lemma PlannedNumbersKeepOrder(src: Source, db: Db, documentId: Id, m: nat)
    requires DistinctIds(src.revisions) && NumberedOnce(src.revisions)
    requires forall k :: k in UsedNumbers(db, documentId) <==> 1 <= k <= m
    ensures Increasing(NumbersOf(NewRevisions(src, db, documentId)))
    ensures Increasing(NewNumbers(src, db, documentId))
  {
    var rows, used := NewRevisions(src, db, documentId), UsedNumbers(db, documentId);
    NewRevisionsSorted(src, db, documentId);
    NewNumberedOnce(src, db, documentId);
    forall i, j | 0 <= i < j < |rows| ensures NumbersOf(rows)[i] < NumbersOf(rows)[j] {
      assert LowerRevision(rows[i], rows[j]);
    }
    assert MaxOf(used + {0}) == m by {
      assert m > 0 ==> m in used;
    }
    OrderKept(NumbersOf(rows), used, m);
  }

  lemma {:induction false} NumberMapHolds(rows: seq<Revision>, numbers: seq<int>)
    requires |rows| == |numbers| && DistinctIds(rows)
    ensures forall i :: 0 <= i < |rows| ==> rows[i].id in NumberMap(rows, numbers) && NumberMap(rows, numbers)[rows[i].id] == numbers[i]
    ensures forall id :: id in NumberMap(rows, numbers) ==> exists i :: 0 <= i < |rows| && rows[i].id == id
  {
    if |rows| > 0 {
      var n := |rows| - 1;
      NumberMapHolds(rows[..n], numbers[..n]);
      forall id | id in NumberMap(rows, numbers) ensures exists i :: 0 <= i < |rows| && rows[i].id == id {
        if id != rows[n].id {
          var i :| 0 <= i < n && rows[..n][i].id == id;
          assert rows[i].id == id;
        }
      }
    }
  }
}
