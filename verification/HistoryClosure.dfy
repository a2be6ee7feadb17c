/** Referential closure: a plan made from closed data can be applied with every reference in
place at the moment its row is written. */
module HistoryClosure {
  import opened HistoryTypes
  import opened ImportOrder
  import opened HistoryPlan
  import opened HistoryApply
  import opened HistoryOutcome

  /** Every row refers to rows that exist. */
  ghost predicate TablesClosed(db: Db) {
    && (forall id :: id in db.projects ==> RefsExist(db, PutProject(db.projects[id])))
    && (forall id :: id in db.workspaces ==> RefsExist(db, PutWorkspace(db.workspaces[id])))
    && (forall id :: id in db.issues ==> RefsExist(db, PutIssue(db.issues[id])))
    && (forall id :: id in db.comments ==> RefsExist(db, PutComment(db.comments[id])))
    && (forall id :: id in db.documents ==> RefsExist(db, PutDocumentRow(db.documents[id])))
    && (forall id :: id in db.revisions ==> RefsExist(db, PutRevision(db.revisions[id])))
    && (forall id :: id in db.attachments ==> RefsExist(db, PutAttachment(db.attachments[id])))
  }

  ghost predicate ParentsInSource(src: Source) {
    forall issue :: issue in src.issues && issue.parentId.Some? ==> issue.parentId.value in IssueIds(src.issues)
  }

  ghost predicate Grows(before: Db, now: Db) {
    && before.agents <= now.agents && before.goals <= now.goals && before.assets.Keys <= now.assets.Keys
    && before.projects.Keys <= now.projects.Keys && before.workspaces.Keys <= now.workspaces.Keys
    && before.issues.Keys <= now.issues.Keys && before.comments.Keys <= now.comments.Keys
    && before.documents.Keys <= now.documents.Keys
  }

  lemma WriteGrows(db: Db, w: RowWrite)
    ensures Grows(db, Written(db, w))
  {
  }

  lemma StillThere(before: Db, now: Db, w: RowWrite)
    requires Grows(before, now) && RefsExist(before, w)
    ensures RefsExist(now, w)
  {
  }

  lemma WriteKeepsClosed(db: Db, w: RowWrite)
    requires TablesClosed(db) && RefsExist(db, w)
    ensures TablesClosed(Written(db, w))
  {
    hide RefsExist, Grows;
    var now := Written(db, w);
    WriteGrows(db, w);
    StillThere(db, now, w);
    forall id | id in now.projects ensures RefsExist(now, PutProject(now.projects[id])) {
      if id in db.projects { StillThere(db, now, PutProject(db.projects[id])); }
    }
    forall id | id in now.workspaces ensures RefsExist(now, PutWorkspace(now.workspaces[id])) {
      if id in db.workspaces { StillThere(db, now, PutWorkspace(db.workspaces[id])); }
    }
    forall id | id in now.issues ensures RefsExist(now, PutIssue(now.issues[id])) {
      if id in db.issues { StillThere(db, now, PutIssue(db.issues[id])); }
    }
    forall id | id in now.comments ensures RefsExist(now, PutComment(now.comments[id])) {
      if id in db.comments { StillThere(db, now, PutComment(db.comments[id])); }
    }
    forall id | id in now.documents ensures RefsExist(now, PutDocumentRow(now.documents[id])) {
      if id in db.documents { StillThere(db, now, PutDocumentRow(db.documents[id])); }
    }
    forall id | id in now.revisions ensures RefsExist(now, PutRevision(now.revisions[id])) {
      if id in db.revisions { StillThere(db, now, PutRevision(db.revisions[id])); }
    }
    forall id | id in now.attachments ensures RefsExist(now, PutAttachment(now.attachments[id])) {
      if id in db.attachments { StillThere(db, now, PutAttachment(db.attachments[id])); }
    }
  }

  /** Legal writes never leave a dangling reference, after any number of them. */
  lemma {:induction false} ClosedAtEveryPrefix(db: Db, log: seq<RowWrite>, k: nat)
    requires TablesClosed(db) && Legal(db, log) && k <= |log|
    ensures TablesClosed(Replay(db, log[..k]))
  {
    hide TablesClosed, RefsExist, Written;
    if k > 0 {
      ClosedAtEveryPrefix(db, log, k - 1);
      assert log[..k][..k - 1] == log[..k - 1];
      assert RefsExist(Replay(db, log[..k - 1]), log[k - 1]);
      WriteKeepsClosed(Replay(db, log[..k - 1]), log[k - 1]);
    }
  }

  // ----- the tables between the parts of the transaction -----

  lemma ProjectsStage(db: Db, plan: Plan)
    ensures var now := AfterProjects(db, plan); now == db.(projects := now.projects, workspaces := now.workspaces)
  {
    ProjectsOutcome(db, plan.projects, db.projects.Keys, db.workspaces.Keys);
  }

  lemma IssuesStage(db: Db, plan: Plan)
    ensures var inserts, now := NewInserts(plan.issues, db.issues.Keys), AfterIssues(db, plan);
      && now == AfterProjects(db, plan).(issues := now.issues, issueCounter := db.issueCounter + |inserts|)
      && now.issues.Keys == db.issues.Keys + InsertedIds(inserts)
  {
    hide NewInserts, InsertedIds, IssuesApplied;
    ProjectsStage(db, plan);
    var d1, inserts := AfterProjects(db, plan), NewInserts(plan.issues, db.issues.Keys);
    IssuesOutcome(Written(d1, SetCounter(d1.issueCounter + |inserts|)), inserts, d1.issueCounter + 1);
  }

  lemma CommentsStage(db: Db, plan: Plan)
    ensures var now := AfterComments(db, plan);
      && now == AfterIssues(db, plan).(comments := now.comments) && db.comments.Keys <= now.comments.Keys
  {
    hide CommentsApplied;
    ProjectsStage(db, plan);
    IssuesStage(db, plan);
    CommentsOutcome(AfterIssues(db, plan), plan.comments, AfterIssues(db, plan).comments.Keys);
  }

  lemma StagesAgree(db: Db, plan: Plan)
    ensures var now := AfterComments(db, plan);
      && now.agents == db.agents && now.goals == db.goals && now.assets == db.assets
      && now.documents == db.documents && now.revisions == db.revisions && now.attachments == db.attachments
    ensures AfterIssues(db, plan).comments == db.comments && AfterIssues(db, plan).agents == db.agents
    ensures AfterProjects(db, plan).agents == db.agents && AfterProjects(db, plan).goals == db.goals
    ensures AfterProjects(db, plan).issues == db.issues
  {
    hide AfterProjects, AfterIssues, AfterComments;
    ProjectsStage(db, plan);
    IssuesStage(db, plan);
    CommentsStage(db, plan);
  }

  // ----- each part is ready -----

  lemma ProjectsAreReady(src: Source, db: Db, opts: Options, plans: seq<ProjectImport>)
    requires ProjectsPlanned(src, db, opts, plans)
    ensures ProjectsReady(db, plans)
  {
    forall p | p in plans
      ensures RefIn(p.project.leadAgentId, db.agents) && RefIn(p.project.goalId, db.goals)
      ensures forall w :: w in p.workspaces ==> w.projectId == p.project.id
    {
      var project := FindProject(src.projects, p.project.id).value;
      assert p == ImportOf(src, db, project);
      SortKeepsMembers(WorkspacesOf(src.workspaces, project.id), PrimaryFirst);
    }
  }

  lemma {:induction false} WorkspacesOfAll(rows: seq<Workspace>, w: Workspace)
    requires w in rows
    ensures w in WorkspacesOf(rows, w.projectId)
  {
    if w != rows[|rows| - 1] {
      assert rows == rows[..|rows| - 1] + [rows[|rows| - 1]];
      WorkspacesOfAll(rows[..|rows| - 1], w);
    }
  }

  lemma ImportsArrive(src: Source, db: Db, opts: Options, plan: Plan)
    requires ProjectsPlanned(src, db, opts, plan.projects)
    ensures var now := AfterProjects(db, plan);
      && db.projects.Keys <= now.projects.Keys && db.workspaces.Keys <= now.workspaces.Keys
      && (forall id :: Imports(src, db, opts, id) ==> id in now.projects)
      && (forall id :: ImportsWorkspace(src, db, opts, id) ==> id in now.workspaces)
  {
    ProjectsOutcome(db, plan.projects, db.projects.Keys, db.workspaces.Keys);
    var now := AfterProjects(db, plan);
    forall id | Imports(src, db, opts, id) ensures id in now.projects {
      assert ImportFor(src, db, opts, id).value in plan.projects;
    }
    forall id | ImportsWorkspace(src, db, opts, id) ensures id in now.workspaces {
      var w :| w in src.workspaces && w.id == id && Imports(src, db, opts, w.projectId);
      var p := ImportFor(src, db, opts, w.projectId).value;
      assert p in plan.projects;
      WorkspacesOfAll(src.workspaces, w);
      SortKeepsMembers(WorkspacesOf(src.workspaces, w.projectId), PrimaryFirst);
      assert w in p.workspaces;
    }
  }

  lemma TargetRowReady(src: Source, db: Db, opts: Options, now: Db, issue: Issue)
    requires now.agents == db.agents && now.goals == db.goals
    requires db.projects.Keys <= now.projects.Keys && db.workspaces.Keys <= now.workspaces.Keys
    requires forall id :: Imports(src, db, opts, id) ==> id in now.projects
    requires forall id :: ImportsWorkspace(src, db, opts, id) ==> id in now.workspaces
    ensures var row := TargetRow(src, db, opts, issue);
      && row.parentId == issue.parentId && RefIn(row.projectId, now.projects.Keys)
      && RefIn(row.workspaceId, now.workspaces.Keys) && RefIn(row.goalId, now.goals)
      && RefIn(row.assigneeAgentId, now.agents) && RefIn(row.createdByAgentId, now.agents)
  {
  }

  /** Import order puts a parent that is inserted too in front. */
  lemma ParentInFront(src: Source, db: Db, opts: Options, order: seq<Issue>, plans: seq<IssuePlan>, k: nat)
    requires UniqueIssueIds(src.issues) && Acyclic(ById(src.issues)) && ParentsInSource(src)
    requires IsImportOrder(src, order) && IssuesPlanned(src, db, opts, order, plans) && k < |plans|
    ensures RefIn(order[k].parentId, db.issues.Keys + InsertedIds(NewInserts(plans[..k], db.issues.Keys)))
  {
    hide IssuePlanAt, NewInserts;
    if order[k].parentId.Some? && order[k].parentId.value !in db.issues {
      var d :| IsDepthMap(ById(src.issues), d) && InImportOrder(d, order);
      ByIdFinds(src.issues);
      assert order[k] in multiset(order);
      assert order[k] in src.issues;
      assert order[k].parentId.value in ById(src.issues);
      ParentsPrecede(src.issues, d, order, k);
      var j :| 0 <= j < k && order[j].id == order[k].parentId.value;
      PlannedAction(src, db, opts, order, plans, j);
      assert plans[..k][j] == plans[j];
      assert plans[j] in NewInserts(plans[..k], db.issues.Keys);
    }
  }

  lemma IssuesAreReady(src: Source, db: Db, opts: Options, order: seq<Issue>, plan: Plan)
    requires UniqueIssueIds(src.issues) && Acyclic(ById(src.issues)) && ParentsInSource(src)
    requires IsPlan(src, db, opts, order, plan)
    ensures IssuesReady(AfterProjects(db, plan), NewInserts(plan.issues, db.issues.Keys))
  {
    hide TargetRow, NewInserts, InsertedIds, AfterProjects, IsImportOrder, ProjectsPlanned, CommentsPlanned, DocumentsPlanned, AttachmentsPlanned;
    var now, inserts := AfterProjects(db, plan), NewInserts(plan.issues, db.issues.Keys);
    StagesAgree(db, plan);
    ImportsArrive(src, db, opts, plan);
    forall m | 0 <= m < |inserts| ensures IssueReady(now, InsertedIds(inserts[..m]), inserts[m]) {
      var k := InsertOrigin(plan.issues, db.issues.Keys, m);
      assert plan.issues[k] == IssuePlanAt(src, db, opts, order, k);
      TargetRowReady(src, db, opts, now, order[k]);
      ParentInFront(src, db, opts, order, plan.issues, k);
    }
  }

  lemma CommentsThere(src: Source, db: Db, opts: Options, plan: Plan, id: Id)
    requires CommentsPlanned(src, db, opts, plan.comments) && AfterIssues(db, plan).issues.Keys == Available(src, db)
    requires CommentAvailable(src, db, opts, id)
    ensures id in AfterComments(db, plan).comments
  {
    CommentPlansAre(src, db, opts, plan.comments);
    hide CommentsPlanned;
    StagesAgree(db, plan);
    CommentsStage(db, plan);
    var d2 := AfterIssues(db, plan);
    CommentsOutcome(d2, plan.comments, d2.comments.Keys);
    if id !in db.comments {
      var c :| c in src.comments && c.id == id && CommentPlanFor(src, db, c).InsertComment?;
      assert CommentPlanFor(src, db, c) in plan.comments;
    }
  }

  lemma CommentsAreReady(src: Source, db: Db, opts: Options, now: Db, plans: seq<CommentPlan>)
    requires CommentsPlanned(src, db, opts, plans) && now.agents == db.agents
    ensures CommentsReady(now, plans)
  {
    CommentPlansAre(src, db, opts, plans);
    hide CommentsPlanned;
  }

  lemma DocumentsAreReady(src: Source, db: Db, now: Db, plans: seq<DocumentPlan>)
    requires DocumentsPlanned(src, db, plans) && now.agents == db.agents
    ensures DocumentsReady(now, plans)
  {
    hide NewRevisions, NewNumbers, LatestNumber, LatestId, AlreadyMatches, KeyTaken, Available;
    forall p | p in plans && p.PutDocument?
      ensures RefIn(p.createdByAgentId, now.agents) && RefIn(p.updatedByAgentId, now.agents)
      ensures forall r :: r in p.revisions ==> RefIn(r.createdByAgentId, now.agents)
    {
      var i :| 0 <= i < |plans| && plans[i] == p;
      assert p == DocumentPlanFor(src, db, SortedDocuments(src)[i]);
    }
  }

  lemma AttachmentsAreReady(src: Source, db: Db, opts: Options, now: Db, plans: seq<AttachmentPlan>)
    requires AttachmentsPlanned(src, db, opts, plans) && now.agents == db.agents
    requires forall id :: CommentAvailable(src, db, opts, id) ==> id in now.comments
    ensures AttachmentsReady(now, plans)
  {
    AttachmentPlansAre(src, db, opts, plans);
    hide AttachmentsPlanned, CommentAvailable;
  }

  /** From closed tables and a closed source without parent cycles, the plan is ready. */
  lemma PlanIsReady(src: Source, db: Db, opts: Options, order: seq<Issue>, plan: Plan)
    requires UniqueIssueIds(src.issues) && Acyclic(ById(src.issues)) && ParentsInSource(src)
    requires TablesClosed(db) && IsPlan(src, db, opts, order, plan)
    ensures PlanReady(db, plan)
  {
    hide AfterProjects, AfterIssues, AfterComments, RefsExist, NewInserts, InsertedIds, Available;
    hide IssuesReady, ProjectsReady, CommentsReady, DocumentsReady, AttachmentsReady;
    StagesAgree(db, plan);
    IssuesStage(db, plan);
    ProjectsAreReady(src, db, opts, plan.projects);
    IssuesAreReady(src, db, opts, order, plan);
    CommentsAreReady(src, db, opts, AfterIssues(db, plan), plan.comments);
    DocumentsAreReady(src, db, AfterComments(db, plan), plan.documents);
    forall id | id in db.documents ensures RefIn(db.documents[id].createdByAgentId, db.agents) {
      CreatorExists(db, id);
    }
    DocumentsFrame(AfterComments(db, plan), plan.documents);
    InsertsPlanned(src, db, opts, order, plan.issues);
    forall id | CommentAvailable(src, db, opts, id) ensures id in AfterComments(db, plan).comments {
      CommentsThere(src, db, opts, plan, id);
    }
    AttachmentsAreReady(src, db, opts, AfterDocuments(db, plan), plan.attachments);
  }

  lemma CreatorExists(db: Db, id: Id)
    requires TablesClosed(db) && id in db.documents
    ensures RefIn(db.documents[id].createdByAgentId, db.agents)
  {
    assert RefsExist(db, PutDocumentRow(db.documents[id]));
  }

  /** The command: plan from the target as it is, then apply.  `Valid` says that every row was
      written after the rows it refers to. */
  method ImportHistory(target: Target, src: Source, opts: Options, bodies: Attachment -> bool)
    returns (plan: Plan, ghost order: seq<Issue>)
    requires UniqueIssueIds(src.issues) && Acyclic(ById(src.issues)) && ParentsInSource(src)
    requires target.Valid() && TablesClosed(target.start)
    modifies target
    ensures IsPlan(src, old(target.db), opts, order, plan)
    ensures target.db == Applied(old(target.db), plan, bodies)
    ensures target.Valid() && TablesClosed(target.db)
  {
    hide TablesClosed, IsPlan, PlanReady, Applied;
    plan, order := BuildPlan(src, target.db, opts);
    AlwaysClosed(target.start, target.log);
    PlanIsReady(src, target.db, opts, order, plan);
    target.Apply(plan, bodies);
    AlwaysClosed(target.start, target.log);
  }

  lemma AlwaysClosed(start: Db, log: seq<RowWrite>)
    requires TablesClosed(start) && Legal(start, log)
    ensures TablesClosed(Replay(start, log))
  {
    ClosedAtEveryPrefix(start, log, |log|);
    assert log[..|log|] == log;
  }
}
