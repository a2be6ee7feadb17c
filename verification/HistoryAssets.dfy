/** Asset rows: when an import meets no id and no object key that is already taken. */
module HistoryAssets {
  import opened HistoryTypes
  import opened HistoryPlan
  import opened HistoryApply
  import opened HistoryOutcome
  import opened HistoryClosure
  import opened HistoryTheorems
  import opened HistoryReimport
  import opened ImportOrder

  predicate Inserts(db: Db, plan: AttachmentPlan, existing: set<Id>, bodies: Attachment -> bool) {
    plan.InsertAttachment? && plan.source.id !in existing && plan.source.issueId in db.issues && bodies(plan.source)
  }

  /** Neither the primary key nor the unique index on object keys is in the way. */
  predicate AssetFree(db: Db, a: Attachment) {
    a.assetId !in db.assets && forall id :: id in db.assets ==> db.assets[id].objectKey != a.objectKey
  }

  predicate AssetsDiffer(a: Attachment, b: Attachment) {
    a.assetId != b.assetId && a.objectKey != b.objectKey
  }

  /** Every asset that is inserted is new when its row is written. */
  ghost predicate EveryAssetNew(db: Db, plans: seq<AttachmentPlan>, existing: set<Id>, bodies: Attachment -> bool) {
    forall i :: 0 <= i < |plans| && Inserts(db, plans[i], existing, bodies) ==>
      AssetFree(AttachmentsApplied(db, plans[..i], existing, bodies), plans[i].source)
  }

  ghost predicate InsertsApart(db: Db, plans: seq<AttachmentPlan>, existing: set<Id>, bodies: Attachment -> bool) {
    && (forall i :: 0 <= i < |plans| && Inserts(db, plans[i], existing, bodies) ==> AssetFree(db, plans[i].source))
    && forall i, j :: 0 <= i < j < |plans| && Inserts(db, plans[i], existing, bodies) && Inserts(db, plans[j], existing, bodies) ==>
         AssetsDiffer(plans[i].source, plans[j].source)
  }

  function AssetOf(plan: AttachmentPlan): Asset
    requires plan.InsertAttachment?
  {
    Asset(plan.source.objectKey, plan.createdByAgentId)
  }

  lemma OneInserted(db: Db, now: Db, plan: AttachmentPlan, existing: set<Id>, bodies: Attachment -> bool)
    requires now.issues == db.issues
    ensures AttachmentApplied(now, plan, existing, bodies).issues == db.issues
    ensures AttachmentApplied(now, plan, existing, bodies).assets ==
      if Inserts(db, plan, existing, bodies) then now.assets[plan.source.assetId := AssetOf(plan)] else now.assets
  {
  }

  /** While every asset was new, an asset is free exactly if it was before and no insert took it. */
  lemma {:induction false} FreeAfter(db: Db, plans: seq<AttachmentPlan>, existing: set<Id>, bodies: Attachment -> bool, a: Attachment)
    requires EveryAssetNew(db, plans, existing, bodies)
    ensures AttachmentsApplied(db, plans, existing, bodies).issues == db.issues
    ensures AssetFree(AttachmentsApplied(db, plans, existing, bodies), a) <==>
      AssetFree(db, a) && forall i :: 0 <= i < |plans| && Inserts(db, plans[i], existing, bodies) ==> AssetsDiffer(plans[i].source, a)
  {
    hide AttachmentApplied;
    if |plans| > 0 {
      var n := |plans| - 1;
      var front, last := plans[..n], plans[n];
      PrefixNew(db, plans, existing, bodies);
      FreeAfter(db, front, existing, bodies, a);
      var now := AttachmentsApplied(db, front, existing, bodies);
      OneInserted(db, now, last, existing, bodies);
      if Inserts(db, last, existing, bodies) {
        FreeBesides(now.assets, last.source.assetId, AssetOf(last), a);
      }
    }
  }

  lemma PrefixNew(db: Db, plans: seq<AttachmentPlan>, existing: set<Id>, bodies: Attachment -> bool)
    requires EveryAssetNew(db, plans, existing, bodies) && |plans| > 0
    ensures EveryAssetNew(db, plans[..|plans| - 1], existing, bodies)
  {
    var front := plans[..|plans| - 1];
    forall i | 0 <= i < |front| && Inserts(db, front[i], existing, bodies)
      ensures AssetFree(AttachmentsApplied(db, front[..i], existing, bodies), front[i].source)
    {
      assert front[..i] == plans[..i] && front[i] == plans[i];
    }
  }

  lemma FreeBesides(assets: map<Id, Asset>, id: Id, asset: Asset, a: Attachment)
    requires id !in assets
    ensures var more := assets[id := asset];
      (a.assetId !in more && forall x :: x in more ==> more[x].objectKey != a.objectKey) <==>
      && (a.assetId !in assets && forall x :: x in assets ==> assets[x].objectKey != a.objectKey)
      && a.assetId != id && a.objectKey != asset.objectKey
  {
    var more := assets[id := asset];
    assert more[id] == asset;
    forall x | x in assets ensures more[x] == assets[x] {
    }
  }

  /** While every asset was new, each one that was inserted is there with its key and its creator. */
  lemma {:induction false} InsertedAssetsStay(
    db: Db, plans: seq<AttachmentPlan>, existing: set<Id>, bodies: Attachment -> bool, i: nat)
    requires EveryAssetNew(db, plans, existing, bodies) && i < |plans| && Inserts(db, plans[i], existing, bodies)
    ensures var now := AttachmentsApplied(db, plans, existing, bodies);
      plans[i].source.assetId in now.assets && now.assets[plans[i].source.assetId] == AssetOf(plans[i])
  {
    hide AttachmentApplied;
    var n := |plans| - 1;
    var front, last := plans[..n], plans[n];
    PrefixNew(db, plans, existing, bodies);
    FreeAfter(db, front, existing, bodies, last.source);
    OneInserted(db, AttachmentsApplied(db, front, existing, bodies), last, existing, bodies);
    if i < n {
      InsertedAssetsStay(db, front, existing, bodies, i);
    }
  }

  /** No insert of an asset fails exactly if the inserted ones differ from each other and from the
      target's in id and object key. */
  lemma {:induction false} AssetsNewIff(db: Db, plans: seq<AttachmentPlan>, existing: set<Id>, bodies: Attachment -> bool)
    ensures EveryAssetNew(db, plans, existing, bodies) <==> InsertsApart(db, plans, existing, bodies)
  {
    hide AttachmentsApplied, AssetFree, Inserts, AssetsDiffer;
    if |plans| > 0 {
      var n := |plans| - 1;
      var front, last := plans[..n], plans[n];
      AssetsNewIff(db, front, existing, bodies);
      LastNew(db, plans, existing, bodies);
      LastApart(db, plans, existing, bodies);
      if EveryAssetNew(db, front, existing, bodies) {
        FreeAfter(db, front, existing, bodies, last.source);
      }
    }
  }

  lemma LastNew(db: Db, plans: seq<AttachmentPlan>, existing: set<Id>, bodies: Attachment -> bool)
    requires |plans| > 0
    ensures var n := |plans| - 1;
      EveryAssetNew(db, plans, existing, bodies) <==>
        && EveryAssetNew(db, plans[..n], existing, bodies)
        && (Inserts(db, plans[n], existing, bodies) ==> AssetFree(AttachmentsApplied(db, plans[..n], existing, bodies), plans[n].source))
  {
    hide AttachmentsApplied, AssetFree, Inserts;
    var n, front := |plans| - 1, plans[..|plans| - 1];
    forall i | 0 <= i < n ensures front[..i] == plans[..i] && front[i] == plans[i] {
    }
  }

  lemma LastApart(db: Db, plans: seq<AttachmentPlan>, existing: set<Id>, bodies: Attachment -> bool)
    requires |plans| > 0
    ensures var n := |plans| - 1;
      var front := plans[..n];
      InsertsApart(db, plans, existing, bodies) <==>
        && InsertsApart(db, front, existing, bodies)
        && (Inserts(db, plans[n], existing, bodies) ==>
            && AssetFree(db, plans[n].source)
            && forall i :: 0 <= i < n && Inserts(db, front[i], existing, bodies) ==> AssetsDiffer(front[i].source, plans[n].source))
  {
    hide AssetFree, Inserts, AssetsDiffer;
    var n, front := |plans| - 1, plans[..|plans| - 1];
    forall i | 0 <= i < n ensures front[i] == plans[i] {
    }
  }

  // ----- what the tables' indexes give -----

  /** Each source asset has one attachment and its own object key; an asset or object key that the
      target has too came with its attachment. */
  ghost predicate AssetRowsAgree(src: Source, db: Db) {
    && (forall i, j :: 0 <= i < j < |src.attachments| ==> AssetsDiffer(src.attachments[i], src.attachments[j]))
    && forall a :: a in src.attachments && a.id !in db.attachments ==> AssetFree(db, a)
  }

  lemma PlannedAssetsApart(src: Source, db: Db, opts: Options, plans: seq<AttachmentPlan>)
    requires AssetRowsAgree(src, db) && AttachmentsPlanned(src, db, opts, plans)
    ensures forall i, j :: 0 <= i < j < |plans| ==> AssetsDiffer(plans[i].source, plans[j].source)
    ensures forall p :: p in plans && p.InsertAttachment? ==> AssetFree(db, p.source)
  {
    AttachmentPlansAre(src, db, opts, plans);
    SortPermutes(src.attachments, EarlierAttachment);
    forall i, j | 0 <= i < j < |plans| ensures AssetsDiffer(plans[i].source, plans[j].source) {
      var a, b := TwoPlaces(src.attachments, SortedAttachments(src), i, j);
      assert a < b || b < a;
    }
    hide AssetFree, Available, CommentAvailable;
  }

  lemma AssetsBefore(db: Db, plan: Plan)
    ensures AfterDocuments(db, plan).assets == db.assets
  {
    hide AfterComments;
    StagesAgree(db, plan);
    DocumentsFrame(AfterComments(db, plan), plan.documents);
  }

  /** No planned asset meets an id or object key that is taken. */
  lemma PlannedAssetsNew(src: Source, db: Db, opts: Options, order: seq<Issue>, plan: Plan, bodies: Attachment -> bool)
    requires AssetRowsAgree(src, db) && IsPlan(src, db, opts, order, plan)
    ensures var before := AfterDocuments(db, plan);
      EveryAssetNew(before, plan.attachments, before.attachments.Keys, bodies)
  {
    hide AfterDocuments, DocumentsPlanned, IssuesPlanned, ProjectsPlanned, CommentsPlanned, AttachmentsPlanned, EveryAssetNew,
      AssetRowsAgree, AssetsDiffer;
    var before := AfterDocuments(db, plan);
    AssetsBefore(db, plan);
    PlannedAssetsApart(src, db, opts, plan.attachments);
    AssetsNewIff(before, plan.attachments, before.attachments.Keys, bodies);
  }

  lemma TablesBefore(db: Db, plan: Plan)
    ensures var now := AfterDocuments(db, plan);
      now.issues == AfterIssues(db, plan).issues && now.attachments == db.attachments
  {
    hide AfterComments, AfterIssues;
    StagesAgree(db, plan);
    CommentsStage(db, plan);
    DocumentsFrame(AfterComments(db, plan), plan.documents);
  }

  /** A source attachment that arrives brings its asset: the object key and, as far as that agent is
      there, the creator. */
  lemma AssetArrives(src: Source, db: Db, opts: Options, order: seq<Issue>, plan: Plan, bodies: Attachment -> bool, a: Attachment)
    requires UniqueIssueIds(src.issues) && AssetRowsAgree(src, db) && IsPlan(src, db, opts, order, plan)
    requires a in src.attachments && a.id !in db.attachments
    ensures var now := Applied(db, plan, bodies);
      a.issueId in now.issues && bodies(a) ==>
        && a.assetId in now.assets && now.assets[a.assetId].objectKey == a.objectKey
        && KeptIfThere(now.assets[a.assetId].createdByAgentId, a.createdByAgentId, now.agents)
  {
    PlannedAssetsNew(src, db, opts, order, plan, bodies);
    AttachmentPlansAre(src, db, opts, plan.attachments);
    IssuesStay(src, db, opts, order, plan, bodies);
    FinalTables(db, plan, bodies);
    TablesBefore(db, plan);
    hide AfterDocuments, AfterIssues, DocumentsPlanned, IssuesPlanned, ProjectsPlanned, CommentsPlanned, AttachmentsPlanned, EveryAssetNew,
      AssetRowsAgree, CommentAvailable, Available, AttachmentsApplied;
    if a.issueId in Available(src, db) && bodies(a) {
      var i :| 0 <= i < |plan.attachments| && plan.attachments[i] == AttachmentPlanFor(src, db, opts, a);
      InsertedAssetsStay(AfterDocuments(db, plan), plan.attachments, AfterDocuments(db, plan).attachments.Keys, bodies, i);
    }
  }
}
