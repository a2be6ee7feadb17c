/** `applyMergePlan`: the writes that realise a plan, inside one transaction.

Every row write goes through `Put`, whose precondition is that the rows it refers to exist
at that moment; `Valid` therefore says so of the whole sequence of writes so far. */
module HistoryApply {
  import opened HistoryTypes
  import opened Revisions
  import opened HistoryPlan
  import opened Optional

  datatype RowWrite =
    | PutProject(project: Project)
    | PutWorkspace(workspace: Workspace)
    | SetCounter(value: int)
    | PutIssue(issue: Issue)
    | PutComment(comment: Comment)
    | PutDocumentRow(document: Document)
    | PutRevision(revision: Revision)
    | PutAsset(assetId: Id, objectKey: string, createdByAgentId: Option<Id>)
    | PutAttachment(attachment: Attachment)

  function Written(db: Db, w: RowWrite): Db {
    match w
    case PutProject(p) => db.(projects := db.projects[p.id := p])
    case PutWorkspace(x) => db.(workspaces := db.workspaces[x.id := x])
    case SetCounter(value) => db.(issueCounter := value)
    case PutIssue(i) => db.(issues := db.issues[i.id := i])
    case PutComment(c) => db.(comments := db.comments[c.id := c])
    case PutDocumentRow(d) => db.(documents := db.documents[d.id := d])
    case PutRevision(r) => db.(revisions := db.revisions[r.id := r])
    case PutAsset(id, objectKey, agent) => db.(assets := db.assets[id := Asset(objectKey, agent)])
    case PutAttachment(a) => db.(attachments := db.attachments[a.id := a])
  }

  predicate RefIn(reference: Option<Id>, ids: set<Id>) {
    reference.Some? ==> reference.value in ids
  }

  /** Project, workspace, goal, agent, parent-issue, issue, comment, document and asset
      references of the row exist. */
  predicate RefsExist(db: Db, w: RowWrite) {
    match w
    case PutProject(p) => RefIn(p.leadAgentId, db.agents) && RefIn(p.goalId, db.goals)
    case PutWorkspace(x) => x.projectId in db.projects
    case SetCounter(_) => true
    case PutIssue(i) =>
      && RefIn(i.parentId, db.issues.Keys) && RefIn(i.projectId, db.projects.Keys)
      && RefIn(i.workspaceId, db.workspaces.Keys) && RefIn(i.goalId, db.goals)
      && RefIn(i.assigneeAgentId, db.agents) && RefIn(i.createdByAgentId, db.agents)
    case PutComment(c) => c.issueId in db.issues && RefIn(c.authorAgentId, db.agents)
    case PutDocumentRow(d) =>
      d.issueId in db.issues && RefIn(d.createdByAgentId, db.agents) && RefIn(d.updatedByAgentId, db.agents)
    case PutRevision(r) => r.documentId in db.documents && RefIn(r.createdByAgentId, db.agents)
    case PutAsset(_, _, agent) => RefIn(agent, db.agents)
    case PutAttachment(a) => a.issueId in db.issues && RefIn(a.commentId, db.comments.Keys) && a.assetId in db.assets
  }

  function Replay(db: Db, log: seq<RowWrite>): Db {
    if |log| == 0 then db else Written(Replay(db, log[..|log| - 1]), log[|log| - 1])
  }

  ghost predicate Legal(db: Db, log: seq<RowWrite>) {
    forall k :: 0 <= k < |log| ==> RefsExist(Replay(db, log[..k]), log[k])
  }

  lemma LegalAppend(db: Db, log: seq<RowWrite>, w: RowWrite)
    requires Legal(db, log) && RefsExist(Replay(db, log), w)
    ensures Legal(db, log + [w]) && Replay(db, log + [w]) == Written(Replay(db, log), w)
  {
    var more := log + [w];
    assert more[..|more| - 1] == log;
    forall k | 0 <= k < |more| ensures RefsExist(Replay(db, more[..k]), more[k]) {
      assert k < |log| ==> more[..k] == log[..k];
    }
  }

  // ----- what each part of the transaction leads to -----

  function WorkspacesApplied(db: Db, rows: seq<Workspace>, existing: set<Id>): Db {
    if |rows| == 0 then db
    else
      var before := WorkspacesApplied(db, rows[..|rows| - 1], existing);
      if rows[|rows| - 1].id in existing then before else Written(before, PutWorkspace(rows[|rows| - 1]))
  }

  function ProjectsApplied(db: Db, plans: seq<ProjectImport>, projects: set<Id>, workspaces: set<Id>): Db {
    if |plans| == 0 then db
    else
      var before, p := ProjectsApplied(db, plans[..|plans| - 1], projects, workspaces), plans[|plans| - 1];
      if p.project.id in projects then before
      else WorkspacesApplied(Written(before, PutProject(p.project)), p.workspaces, workspaces)
  }

  function NewInserts(plans: seq<IssuePlan>, existing: set<Id>): (r: seq<IssuePlan>)
    ensures forall p :: p in r <==> p in plans && p.InsertIssue? && p.source.id !in existing
  {
    if |plans| == 0 then []
    else
      var last := plans[|plans| - 1];
      assert plans == plans[..|plans| - 1] + [last];
      NewInserts(plans[..|plans| - 1], existing) +
      if last.InsertIssue? && last.source.id !in existing then [last] else []
  }

  function NumberedRow(p: IssuePlan, number: int): Issue
    requires p.InsertIssue?
  {
    p.target.(id := p.source.id, number := number)
  }

  function IssuesApplied(db: Db, inserts: seq<IssuePlan>, first: int): Db
    requires forall p :: p in inserts ==> p.InsertIssue?
  {
    if |inserts| == 0 then db
    else Written(IssuesApplied(db, inserts[..|inserts| - 1], first),
                 PutIssue(NumberedRow(inserts[|inserts| - 1], first + |inserts| - 1)))
  }

  /** The counter is raised by the number of inserts; they get the numbers in between. */
  function AllIssuesApplied(db: Db, inserts: seq<IssuePlan>): Db
    requires forall p :: p in inserts ==> p.InsertIssue?
  {
    IssuesApplied(Written(db, SetCounter(db.issueCounter + |inserts|)), inserts, db.issueCounter + 1)
  }

  lemma NoIssuesApplied(db: Db)
    ensures AllIssuesApplied(db, []) == db && InsertedIds([]) == {}
  {
  }

  function CommentApplied(db: Db, plan: CommentPlan, existing: set<Id>): Db {
    if plan.InsertComment? && plan.source.id !in existing && plan.source.issueId in db.issues
    then Written(db, PutComment(plan.source.(authorAgentId := plan.authorAgentId)))
    else db
  }

  function CommentsApplied(db: Db, plans: seq<CommentPlan>, existing: set<Id>): Db {
    if |plans| == 0 then db
    else CommentApplied(CommentsApplied(db, plans[..|plans| - 1], existing), plans[|plans| - 1], existing)
  }

  /** The document row after the plan: a merge keeps what the target had as creator. */
  function DocumentRow(db: Db, plan: DocumentPlan): Document
    requires plan.PutDocument?
  {
    var d := plan.source.(
      latestRevisionId := plan.latestRevisionId,
      latestRevisionNumber := plan.latestRevisionNumber,
      createdByAgentId := plan.createdByAgentId,
      updatedByAgentId := plan.updatedByAgentId);
    if d.id in db.documents then
      var existing := db.documents[d.id];
      d.(createdByAgentId := existing.createdByAgentId, createdAt := existing.createdAt, linkCreatedAt := existing.linkCreatedAt)
    else d
  }

  function RevisionRow(documentId: Id, p: PlannedRevision): Revision {
    p.source.(documentId := documentId, number := p.number, createdByAgentId := p.createdByAgentId)
  }

  function RevisionsApplied(db: Db, documentId: Id, planned: seq<PlannedRevision>, existing: set<Id>): Db {
    if |planned| == 0 then db
    else
      var before, p := RevisionsApplied(db, documentId, planned[..|planned| - 1], existing), planned[|planned| - 1];
      if p.source.id in existing then before else Written(before, PutRevision(RevisionRow(documentId, p)))
  }

  function DocumentApplied(db: Db, plan: DocumentPlan): Db {
    if plan.SkipDocument? || plan.source.issueId !in db.issues || KeyTaken(db, plan.source) then db
    else
      var put := Written(db, PutDocumentRow(DocumentRow(db, plan)));
      RevisionsApplied(put, plan.source.id, plan.revisions, TargetRevisions(put, plan.source.id))
  }

  function DocumentsApplied(db: Db, plans: seq<DocumentPlan>): Db {
    if |plans| == 0 then db
    else DocumentApplied(DocumentsApplied(db, plans[..|plans| - 1]), plans[|plans| - 1])
  }

  function AttachmentApplied(db: Db, plan: AttachmentPlan, existing: set<Id>, bodies: Attachment -> bool): Db {
    if plan.InsertAttachment? && plan.source.id !in existing && plan.source.issueId in db.issues && bodies(plan.source)
    then Written(Written(db, PutAsset(plan.source.assetId, plan.source.objectKey, plan.createdByAgentId)),
                 PutAttachment(plan.source.(commentId := plan.commentId, createdByAgentId := plan.createdByAgentId)))
    else db
  }

  function AttachmentsApplied(db: Db, plans: seq<AttachmentPlan>, existing: set<Id>, bodies: Attachment -> bool): Db {
    if |plans| == 0 then db
    else AttachmentApplied(AttachmentsApplied(db, plans[..|plans| - 1], existing, bodies), plans[|plans| - 1], existing, bodies)
  }

  function AfterProjects(db: Db, plan: Plan): Db {
    ProjectsApplied(db, plan.projects, db.projects.Keys, db.workspaces.Keys)
  }

  function AfterIssues(db: Db, plan: Plan): Db {
    var before := AfterProjects(db, plan);
    AllIssuesApplied(before, NewInserts(plan.issues, before.issues.Keys))
  }

  function AfterComments(db: Db, plan: Plan): Db {
    var before := AfterIssues(db, plan);
    CommentsApplied(before, plan.comments, before.comments.Keys)
  }

  function AfterDocuments(db: Db, plan: Plan): Db {
    DocumentsApplied(AfterComments(db, plan), plan.documents)
  }

  /** The whole transaction; `bodies` says for which attachments the stored object was found. */
  function Applied(db: Db, plan: Plan, bodies: Attachment -> bool): Db {
    var before := AfterDocuments(db, plan);
    AttachmentsApplied(before, plan.attachments, before.attachments.Keys, bodies)
  }

  // ----- what the plan must offer for every reference to exist when it is written -----

  ghost predicate ProjectsReady(db: Db, plans: seq<ProjectImport>) {
    forall p :: p in plans ==>
      && RefIn(p.project.leadAgentId, db.agents) && RefIn(p.project.goalId, db.goals)
      && forall w :: w in p.workspaces ==> w.projectId == p.project.id
  }

  function InsertedIds(inserts: seq<IssuePlan>): set<Id> {
    set p | p in inserts :: p.source.id
  }

  ghost predicate IssueReady(db: Db, earlier: set<Id>, p: IssuePlan) {
    p.InsertIssue? ==>
      && RefIn(p.target.parentId, db.issues.Keys + earlier) && RefIn(p.target.projectId, db.projects.Keys)
      && RefIn(p.target.workspaceId, db.workspaces.Keys) && RefIn(p.target.goalId, db.goals)
      && RefIn(p.target.assigneeAgentId, db.agents) && RefIn(p.target.createdByAgentId, db.agents)
  }

  ghost predicate IssuesReady(db: Db, inserts: seq<IssuePlan>) {
    forall i :: 0 <= i < |inserts| ==> IssueReady(db, InsertedIds(inserts[..i]), inserts[i])
  }

  ghost predicate CommentsReady(db: Db, plans: seq<CommentPlan>) {
    forall p :: p in plans && p.InsertComment? ==> RefIn(p.authorAgentId, db.agents)
  }

  ghost predicate DocumentsReady(db: Db, plans: seq<DocumentPlan>) {
    forall p :: p in plans && p.PutDocument? ==>
      && RefIn(p.createdByAgentId, db.agents) && RefIn(p.updatedByAgentId, db.agents)
      && forall r :: r in p.revisions ==> RefIn(r.createdByAgentId, db.agents)
  }

  ghost predicate DocumentCreatorsExist(db: Db) {
    forall id :: id in db.documents ==> RefIn(db.documents[id].createdByAgentId, db.agents)
  }

  ghost predicate AttachmentsReady(db: Db, plans: seq<AttachmentPlan>) {
    forall p :: p in plans && p.InsertAttachment? ==>
      RefIn(p.createdByAgentId, db.agents) && RefIn(p.commentId, db.comments.Keys)
  }

  /** `plan` can be applied with every reference in place when its row is written. */
  ghost predicate PlanReady(db: Db, plan: Plan) {
    && ProjectsReady(db, plan.projects)
    && (var now := AfterProjects(db, plan); IssuesReady(now, NewInserts(plan.issues, now.issues.Keys)))
    && CommentsReady(AfterIssues(db, plan), plan.comments)
    && (var now := AfterComments(db, plan); DocumentsReady(now, plan.documents) && DocumentCreatorsExist(now))
    && AttachmentsReady(AfterDocuments(db, plan), plan.attachments)
  }

  lemma ReadyToPut(db: Db, now: Db, earlier: set<Id>, p: IssuePlan, number: int)
    requires p.InsertIssue? && IssueReady(db, earlier, p)
    requires now == db.(issues := now.issues) && now.issues.Keys == db.issues.Keys + earlier
    ensures RefsExist(now, PutIssue(NumberedRow(p, number)))
  {
  }

  lemma CounterKeepsReady(db: Db, counter: int, inserts: seq<IssuePlan>)
    requires IssuesReady(db, inserts)
    ensures IssuesReady(db.(issueCounter := counter), inserts)
  {
    forall i | 0 <= i < |inserts| ensures IssueReady(db.(issueCounter := counter), InsertedIds(inserts[..i]), inserts[i]) {
      assert IssueReady(db, InsertedIds(inserts[..i]), inserts[i]);
    }
  }

  lemma InsertedIdsGrow(inserts: seq<IssuePlan>, i: nat)
    requires i < |inserts|
    ensures InsertedIds(inserts[..i + 1]) == InsertedIds(inserts[..i]) + {inserts[i].source.id}
    ensures inserts[..i + 1][..i] == inserts[..i] && inserts[i] in inserts
  {
    assert inserts[..i + 1] == inserts[..i] + [inserts[i]];
  }

  class Target {
    var db: Db
    ghost const start: Db
    ghost var log: seq<RowWrite>

    constructor (db: Db)
      ensures Valid() && this.db == db && start == db
    {
      this.db := db;
      start := db;
      log := [];
    }

    ghost predicate Valid()
      reads this
    {
      db == Replay(start, log) && Legal(start, log)
    }

    method Put(w: RowWrite)
      requires Valid() && RefsExist(db, w)
      modifies this
      ensures Valid() && db == Written(old(db), w)
    {
      LegalAppend(start, log, w);
      db := Written(db, w);
      log := log + [w];
    }

    method ApplyWorkspaces(rows: seq<Workspace>, existing: set<Id>)
      requires Valid() && forall w :: w in rows ==> w.projectId in db.projects
      modifies this
      ensures Valid() && db == WorkspacesApplied(old(db), rows, existing)
      ensures db == old(db).(workspaces := db.workspaces)
    {
      for i := 0 to |rows|
        invariant Valid() && db == WorkspacesApplied(old(db), rows[..i], existing)
        invariant db == old(db).(workspaces := db.workspaces)
      {
        assert rows[..i + 1][..i] == rows[..i];
        if rows[i].id !in existing {
          Put(PutWorkspace(rows[i]));
        }
      }
      assert rows[..|rows|] == rows;
    }

    method ApplyProjects(plans: seq<ProjectImport>)
      requires Valid() && ProjectsReady(db, plans)
      modifies this
      ensures Valid() && db == ProjectsApplied(old(db), plans, old(db).projects.Keys, old(db).workspaces.Keys)
      ensures db == old(db).(projects := db.projects, workspaces := db.workspaces)
    {
      var existingProjects, existingWorkspaces := db.projects.Keys, db.workspaces.Keys;
      for i := 0 to |plans|
        invariant Valid() && db == ProjectsApplied(old(db), plans[..i], existingProjects, existingWorkspaces)
        invariant db == old(db).(projects := db.projects, workspaces := db.workspaces)
      {
        assert plans[..i + 1][..i] == plans[..i];
        assert plans[i] in plans;
        if plans[i].project.id !in existingProjects {
          Put(PutProject(plans[i].project));
          ApplyWorkspaces(plans[i].workspaces, existingWorkspaces);
        }
      }
      assert plans[..|plans|] == plans;
    }

    method InsertIssues(inserts: seq<IssuePlan>, first: int)
      requires Valid() && (forall p :: p in inserts ==> p.InsertIssue?) && IssuesReady(db, inserts)
      modifies this
      ensures Valid() && db == IssuesApplied(old(db), inserts, first)
      ensures db == old(db).(issues := db.issues) && db.issues.Keys == old(db).issues.Keys + InsertedIds(inserts)
    {
      hide Legal, Replay, RefsExist, IssueReady, InsertedIds, NewInserts;
      var nextIssueNumber := first;
      ghost var before := db;
      NoIssuesApplied(db);
      assert inserts[..0] == [];
      for i := 0 to |inserts|
        invariant Valid() && db == IssuesApplied(before, inserts[..i], first) && nextIssueNumber == first + i
        invariant db == before.(issues := db.issues)
        invariant db.issues.Keys == before.issues.Keys + InsertedIds(inserts[..i])
      {
        InsertedIdsGrow(inserts, i);
        ReadyToPut(before, db, InsertedIds(inserts[..i]), inserts[i], nextIssueNumber);
        Put(PutIssue(NumberedRow(inserts[i], nextIssueNumber)));
        nextIssueNumber := nextIssueNumber + 1;
      }
      assert inserts[..|inserts|] == inserts;
    }

    method RaiseCounter(inserts: seq<IssuePlan>) returns (nextIssueNumber: int)
      requires Valid() && IssuesReady(db, inserts)
      modifies this
      ensures Valid() && db == Written(old(db), SetCounter(old(db).issueCounter + |inserts|)) && IssuesReady(db, inserts)
      ensures nextIssueNumber == old(db).issueCounter + 1
    {
      CounterKeepsReady(db, db.issueCounter + |inserts|, inserts);
      Put(SetCounter(db.issueCounter + |inserts|));
      nextIssueNumber := db.issueCounter - |inserts| + 1;
    }

    method ApplyIssues(plans: seq<IssuePlan>)
      requires Valid() && IssuesReady(db, NewInserts(plans, db.issues.Keys))
      modifies this
      ensures Valid() && db == AllIssuesApplied(old(db), NewInserts(plans, old(db).issues.Keys))
    {
      hide Legal, Replay, IssueReady, IssuesReady, Written, NewInserts;
      var inserts := NewInserts(plans, db.issues.Keys);
      if |inserts| > 0 {
        var nextIssueNumber := RaiseCounter(inserts);
        InsertIssues(inserts, nextIssueNumber);
      } else {
        NoIssuesApplied(db);
      }
    }

    method ApplyComments(plans: seq<CommentPlan>)
      requires Valid() && CommentsReady(db, plans)
      modifies this
      ensures Valid() && db == CommentsApplied(old(db), plans, old(db).comments.Keys)
      ensures db == old(db).(comments := db.comments)
    {
      var existing := db.comments.Keys;
      for i := 0 to |plans|
        invariant Valid() && db == CommentsApplied(old(db), plans[..i], existing)
        invariant db == old(db).(comments := db.comments)
      {
        assert plans[..i + 1][..i] == plans[..i];
        assert plans[i] in plans;
        var plan := plans[i];
        if plan.InsertComment? && plan.source.id !in existing && plan.source.issueId in db.issues {
          Put(PutComment(plan.source.(authorAgentId := plan.authorAgentId)));
        }
      }
      assert plans[..|plans|] == plans;
    }

    method ApplyRevisions(documentId: Id, planned: seq<PlannedRevision>)
      requires Valid() && documentId in db.documents
      requires forall r :: r in planned ==> RefIn(r.createdByAgentId, db.agents)
      modifies this
      ensures Valid() && db == RevisionsApplied(old(db), documentId, planned, TargetRevisions(old(db), documentId))
      ensures db == old(db).(revisions := db.revisions)
    {
      var existing := TargetRevisions(db, documentId);
      for i := 0 to |planned|
        invariant Valid() && db == RevisionsApplied(old(db), documentId, planned[..i], existing)
        invariant db == old(db).(revisions := db.revisions)
      {
        assert planned[..i + 1][..i] == planned[..i];
        assert planned[i] in planned;
        if planned[i].source.id !in existing {
          Put(PutRevision(RevisionRow(documentId, planned[i])));
        }
      }
      assert planned[..|planned|] == planned;
    }

    method ApplyDocuments(plans: seq<DocumentPlan>)
      requires Valid() && DocumentsReady(db, plans) && DocumentCreatorsExist(db)
      modifies this
      ensures Valid() && db == DocumentsApplied(old(db), plans)
      ensures db == old(db).(documents := db.documents, revisions := db.revisions)
    {
      for i := 0 to |plans|
        invariant Valid() && db == DocumentsApplied(old(db), plans[..i]) && DocumentCreatorsExist(db)
        invariant db == old(db).(documents := db.documents, revisions := db.revisions)
      {
        assert plans[..i + 1][..i] == plans[..i];
        assert plans[i] in plans;
        var plan := plans[i];
        if plan.PutDocument? && plan.source.issueId in db.issues && !KeyTaken(db, plan.source) {
          Put(PutDocumentRow(DocumentRow(db, plan)));
          ApplyRevisions(plan.source.id, plan.revisions);
        }
      }
      assert plans[..|plans|] == plans;
    }

    method ApplyAttachments(plans: seq<AttachmentPlan>, bodies: Attachment -> bool)
      requires Valid() && AttachmentsReady(db, plans)
      modifies this
      ensures Valid() && db == AttachmentsApplied(old(db), plans, old(db).attachments.Keys, bodies)
      ensures db == old(db).(assets := db.assets, attachments := db.attachments)
    {
      var existing := db.attachments.Keys;
      for i := 0 to |plans|
        invariant Valid() && db == AttachmentsApplied(old(db), plans[..i], existing, bodies)
        invariant db == old(db).(assets := db.assets, attachments := db.attachments)
      {
        assert plans[..i + 1][..i] == plans[..i];
        assert plans[i] in plans;
        var plan := plans[i];
        if plan.InsertAttachment? && plan.source.id !in existing && plan.source.issueId in db.issues && bodies(plan.source) {
          Put(PutAsset(plan.source.assetId, plan.source.objectKey, plan.createdByAgentId));
          Put(PutAttachment(plan.source.(commentId := plan.commentId, createdByAgentId := plan.createdByAgentId)));
        }
      }
      assert plans[..|plans|] == plans;
    }
 
    /** `applyMergePlan` as a whole. */
    method Apply(plan: Plan, bodies: Attachment -> bool)
      requires Valid() && PlanReady(db, plan)
      modifies this
      ensures Valid() && db == Applied(old(db), plan, bodies)
    {
      hide ProjectsReady, IssuesReady, CommentsReady, DocumentsReady, DocumentCreatorsExist, AttachmentsReady, NewInserts, Replay, Legal;
      hide ProjectsApplied, AllIssuesApplied, CommentsApplied, DocumentsApplied, AttachmentsApplied;
      ApplyProjects(plan.projects);
      ApplyIssues(plan.issues);
      ApplyComments(plan.comments);
      ApplyDocuments(plan.documents);
      ApplyAttachments(plan.attachments, bodies);
    }
  }
}
