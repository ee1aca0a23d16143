/** What every reachable conversation store keeps about projects, read roots, provider
    profiles and selections, and what a project's revision stands for. */
module ConversationCatalog {
  import opened Whitespace
  import opened Wrappers
  import opened ConversationModel
  import opened ConversationTranscript

  // ------------------------------------------------------------- invariant

  ghost predicate SelectionsOk(s: Store) {
    && (s.workspace.newConversationProject.Some? ==> ActiveProject(s, s.workspace.newConversationProject.value))
    && (s.workspace.selectedConversation.Some? ==> ActiveConversation(s, s.workspace.selectedConversation.value))
    && (s.workspace.selectedProfile.Some? ==> s.workspace.selectedProfile.value in s.profiles)
  }

  /** A conversation's project exists; it may be archived, as restoring does not recheck it. */
  ghost predicate ConversationsOk(s: Store) {
    forall k | k in s.conversations ::
      && (s.conversations[k].project.Some? ==> s.conversations[k].project.value in s.projects)
      && (s.conversations[k].profile.Some? ==> s.conversations[k].profile.value in s.profiles)
  }

  ghost predicate ProfilesOk(s: Store) {
    && (forall p | p in s.profiles :: s.profiles[p].connection in s.connections)
    && (forall p, q | p in s.profiles && q in s.profiles && s.profiles[p].connection == s.profiles[q].connection
                      && s.profiles[p].model == s.profiles[q].model :: p == q)
  }

  ghost predicate ProjectsOk(s: Store) {
    && (forall p | p in s.projects :: s.projects[p].revision > 0)
    && (forall r | r in s.readRoots :: s.readRoots[r].project in s.projects)
    && (forall p :: |RootsOf(s, p)| <= MAX_READ_ROOTS)
    && (forall r, q | r in s.readRoots && q in s.readRoots && s.readRoots[r].project == s.readRoots[q].project
                      && s.readRoots[r].path == s.readRoots[q].path :: r == q)
  }

  ghost predicate Catalog(s: Store) {
    SelectionsOk(s) && ConversationsOk(s) && ProfilesOk(s) && ProjectsOk(s)
  }

  // ----------------------------------------------------------------- steps

  lemma {:induction false} TurnStepsKeep(s: Store, c: Command)
    requires Catalog(s) && IsTurnCommand(c)
    ensures Catalog(TurnStep(s, c).0)
  {
    hide Insertable, MaxSequence, BegunReply, FindItem, TurnItems, IsAnswer, HasRunningTurn;
    var s' := TurnStep(s, c).0;
    assert s' == s.(turns := s'.turns, items := s'.items);
    SameTablesKeep(s, s');
  }

  lemma {:induction false} SameTablesKeep(s: Store, s': Store)
    requires Catalog(s) && s' == s.(turns := s'.turns, items := s'.items)
    ensures Catalog(s')
  {
    forall p ensures RootsOf(s', p) == RootsOf(s, p) {
    }
  }

  lemma {:induction false} ConversationStepsKeep(s: Store, c: Command)
    requires Catalog(s) && IsConversationCommand(c)
    ensures Catalog(ConversationStep(s, c).0)
  {
    hide RootsOf, HasRunningTurn, ProfilesOk, ProjectsOk, SelectionsOk, ConversationsOk;
    var (s', r) := ConversationStep(s, c);
    assert s' == s.(conversations := s'.conversations, workspace := s'.workspace);
    SameProjectsKeep(s, s');
    ConversationStepsKeepSelections(s, c);
    ConversationStepsKeepConversations(s, c);
  }

  lemma {:induction false} ConversationStepsKeepSelections(s: Store, c: Command)
    requires SelectionsOk(s) && IsConversationCommand(c)
    ensures SelectionsOk(ConversationStep(s, c).0)
  {
    hide HasRunningTurn;
  }

  lemma {:induction false} ConversationStepsKeepConversations(s: Store, c: Command)
    requires SelectionsOk(s) && ConversationsOk(s) && IsConversationCommand(c)
    ensures ConversationsOk(ConversationStep(s, c).0)
  {
    hide HasRunningTurn;
  }

  lemma {:induction false} SameProjectsKeep(s: Store, s': Store)
    requires ProfilesOk(s) && ProjectsOk(s)
    requires s'.projects == s.projects && s'.readRoots == s.readRoots && s'.profiles == s.profiles && s'.connections == s.connections
    ensures ProfilesOk(s') && ProjectsOk(s')
  {
    forall p ensures RootsOf(s', p) == RootsOf(s, p) {
    }
  }

  predicate IsSelectionCommand(c: Command) {
    !IsTurnCommand(c) && !IsProjectCommand(c) && !IsConversationCommand(c)
  }

  lemma {:induction false} SelectionStepsKeep(s: Store, c: Command)
    requires Catalog(s) && IsSelectionCommand(c)
    ensures Catalog(SelectionStep(s, c).0)
  {
    hide SelectionsOk, ConversationsOk, ProfilesOk, ProjectsOk;
    SelectionStepsKeepSelections(s, c);
    SelectionStepsKeepConversations(s, c);
    SelectionStepsKeepProfiles(s, c);
    SelectionStepsKeepProjects(s, c);
  }

  lemma {:induction false} SelectionStepsKeepSelections(s: Store, c: Command)
    requires SelectionsOk(s) && IsSelectionCommand(c)
    ensures SelectionsOk(SelectionStep(s, c).0)
  {
    hide HasRunningTurn;
  }

  lemma {:induction false} SelectionStepsKeepConversations(s: Store, c: Command)
    requires ConversationsOk(s) && IsSelectionCommand(c)
    ensures ConversationsOk(SelectionStep(s, c).0)
  {
    hide HasRunningTurn, ActiveProject;
  }

  lemma {:induction false} SelectionStepsKeepProfiles(s: Store, c: Command)
    requires ProfilesOk(s) && IsSelectionCommand(c)
    ensures ProfilesOk(SelectionStep(s, c).0)
  {
    hide HasRunningTurn, ActiveProject, ActiveConversation, WithoutProfiles;
  }

  lemma {:induction false} SelectionStepsKeepProjects(s: Store, c: Command)
    requires ProjectsOk(s) && IsSelectionCommand(c)
    ensures ProjectsOk(SelectionStep(s, c).0)
  {
    hide RootsOf, SelectionStep;
    SelectionStepsAddProjects(s, c);
    NewProjectKeeps(s, SelectionStep(s, c).0);
  }

  lemma {:induction false} SelectionStepsAddProjects(s: Store, c: Command)
    requires IsSelectionCommand(c)
    ensures var s' := SelectionStep(s, c).0;
            && s'.readRoots == s.readRoots && (forall p | p in s.projects :: p in s'.projects)
            && (forall p | p in s'.projects :: s'.projects[p].revision == 1 || (p in s.projects && s'.projects[p] == s.projects[p]))
  {
    hide HasRunningTurn, ActiveProject, ActiveConversation, WithoutProfiles, ProfilesOf, RootsOf, Detached;
    var s' := SelectionStep(s, c).0;
    if !c.CreateProject? && !c.CreateProjectAsScope? {
      assert s'.projects == s.projects && s'.readRoots == s.readRoots;
    }
  }

  lemma {:induction false} NewProjectKeeps(s: Store, s': Store)
    requires ProjectsOk(s) && s'.readRoots == s.readRoots
    requires forall p | p in s.projects :: p in s'.projects
    requires forall p | p in s'.projects :: s'.projects[p].revision > 0
    ensures ProjectsOk(s')
  {
    forall p ensures RootsOf(s', p) == RootsOf(s, p) {
    }
  }

  lemma {:induction false} ProjectStepsKeep(s: Store, c: Command)
    requires Catalog(s) && IsProjectCommand(c)
    ensures Catalog(ProjectStep(s, c).0)
  {
    hide ProjectsOk, ProfilesOk, SelectionsOk, ConversationsOk, RootsOf;
    ProjectStepsKeepRoots(s, c);
    ProjectStepsKeepSelections(s, c);
    ProjectStepsKeepConversations(s, c);
    SameProfilesKeep(s, ProjectStep(s, c).0);
  }

  lemma {:induction false} ProjectStepsKeepSelections(s: Store, c: Command)
    requires SelectionsOk(s) && IsProjectCommand(c)
    ensures SelectionsOk(ProjectStep(s, c).0)
  {
    hide RootsOf;
  }

  lemma {:induction false} ProjectStepsKeepConversations(s: Store, c: Command)
    requires ConversationsOk(s) && IsProjectCommand(c)
    ensures ConversationsOk(ProjectStep(s, c).0)
  {
    hide RootsOf;
  }

  lemma {:induction false} SameProfilesKeep(s: Store, s': Store)
    requires ProfilesOk(s) && s'.profiles == s.profiles && s'.connections == s.connections
    ensures ProfilesOk(s')
  {
  }

  lemma {:induction false} ProjectStepsKeepRoots(s: Store, c: Command)
    requires ProjectsOk(s) && IsProjectCommand(c)
    ensures ProjectsOk(ProjectStep(s, c).0)
  {
    hide ProjectsOk, RootsOf;
    var (s', r) := ProjectStep(s, c);
    if s' != s {
      match c {
        case AddReadRoot(id, rootId, name, path, _) => AddKeepsRoots(s, s', id, rootId, ReadRoot(id, Trim(name), path));
        case RemoveReadRoot(id, rootId, _) => FewerRootsKeep(s, s');
        case DeleteProject(id, _) => FewerRootsKeep(s, s');
        case _ => FewerRootsKeep(s, s');
      }
    }
  }

  lemma {:induction false} FewerRootsKeep(s: Store, s': Store)
    requires ProjectsOk(s)
    requires forall r | r in s'.readRoots :: r in s.readRoots && s'.readRoots[r] == s.readRoots[r]
    requires forall r | r in s'.readRoots && s'.readRoots[r].project in s.projects :: s'.readRoots[r].project in s'.projects
    requires forall p | p in s'.projects :: s'.projects[p].revision > 0 || (p in s.projects && s'.projects[p] == s.projects[p])
    ensures ProjectsOk(s')
  {
    forall p ensures |RootsOf(s', p)| <= MAX_READ_ROOTS {
      SubsetSize(RootsOf(s', p).Keys, RootsOf(s, p).Keys);
      assert |RootsOf(s', p)| == |RootsOf(s', p).Keys| && |RootsOf(s, p)| == |RootsOf(s, p).Keys|;
    }
  }

  lemma {:induction false} SubsetSize(a: set<Id>, b: set<Id>)
    requires a <= b
    ensures |a| <= |b|
  {
    assert b == a + (b - a);
  }

  lemma {:induction false} AddKeepsRoots(s: Store, s': Store, id: Id, rootId: Id, root: ReadRoot)
    requires ProjectsOk(s) && id in s.projects && root.project == id && rootId !in s.readRoots
    requires |RootsOf(s, id)| < MAX_READ_ROOTS
    requires s'.readRoots == s.readRoots[rootId := root] && s'.projects.Keys == s.projects.Keys
    requires forall p | p in s'.projects :: s'.projects[p].revision > 0 || s'.projects[p] == s.projects[p]
    requires forall r | r in s.readRoots && s.readRoots[r].project == id :: s.readRoots[r].path != root.path
    ensures ProjectsOk(s')
  {
    hide RootsOf;
    forall p ensures |RootsOf(s', p)| <= MAX_READ_ROOTS {
      OneMoreRoot(s, s', rootId, root, p);
    }
  }

  lemma {:induction false} OneMoreRoot(s: Store, s': Store, rootId: Id, root: ReadRoot, p: Id)
    requires rootId !in s.readRoots && s'.readRoots == s.readRoots[rootId := root]
    ensures |RootsOf(s', p)| == |RootsOf(s, p)| + if p == root.project then 1 else 0
  {
    if p == root.project {
      assert RootsOf(s', p) == RootsOf(s, p)[rootId := root];
    } else {
      assert RootsOf(s', p) == RootsOf(s, p);
    }
  }

  lemma {:induction false} StepKeepsCatalog(s: Store, c: Command)
    requires Catalog(s)
    ensures Catalog(Step(s, c).0)
  {
    hide Catalog, TurnStep, ProjectStep, ConversationStep, SelectionStep;
    if IsTurnCommand(c) {
      TurnStepsKeep(s, c);
    } else if IsProjectCommand(c) {
      ProjectStepsKeep(s, c);
    } else if IsConversationCommand(c) {
      ConversationStepsKeep(s, c);
    } else {
      SelectionStepsKeep(s, c);
    }
  }

  lemma {:induction false} RunKeepsCatalog(s: Store, commands: seq<Command>)
    requires Catalog(s)
    ensures Catalog(Run(s, commands))
    decreases |commands|
  {
    hide Catalog, Step;
    if commands != [] {
      StepKeepsCatalog(s, commands[0]);
      RunKeepsCatalog(Step(s, commands[0]).0, commands[1..]);
    }
  }

  /** In every reachable store: selections are empty or active, selected profiles and the
      projects of conversations exist, no project has more than eight read roots, and archived
      conversations have no running turn. */
  lemma {:induction false} ReachableCatalog(commands: seq<Command>)
    ensures Catalog(Run(EMPTY, commands))
    ensures var s := Run(EMPTY, commands);
            forall k | k in s.conversations && s.conversations[k].status == Archived :: !HasRunningTurn(s, k)
  {
    hide Run, ItemsOk;
    Reachable(commands);
    assert forall p :: RootsOf(EMPTY, p) == map[];
    RunKeepsCatalog(EMPTY, commands);
  }

  lemma {:induction false} RunSnoc(s: Store, commands: seq<Command>, c: Command)
    ensures Run(s, commands + [c]) == Step(Run(s, commands), c).0
    decreases |commands|
  {
    hide Step;
    if commands == [] {
      var one := [c];
      assert commands + one == one && one[1..] == [];
    } else {
      assert (commands + [c])[1..] == commands[1..] + [c];
      RunSnoc(Step(s, commands[0]).0, commands[1..], c);
    }
  }

  /** An active conversation may point at an archived project: restoring does not recheck. */
  lemma {:induction false} ActiveInArchivedProject(p: Id, c: Id) returns (commands: seq<Command>)
    ensures var s := Run(EMPTY, commands);
            ActiveConversation(s, c) && s.conversations[c].project == Some(p) && p in s.projects && s.projects[p].status == Archived
  {
    hide Run, Trim;
    var row := Conversation(Trim("t"), Some(p), None, None, UseAndLearn, Active);
    RunSnoc(EMPTY, [], CreateProject(p, "n", None));
    commands := [] + [CreateProject(p, "n", None)];
    assert Run(EMPTY, []) == EMPTY by { RunNothing(); }
    var s1 := EMPTY.(projects := map[p := Project(Trim("n"), None, 1, Active)]);
    assert Run(EMPTY, commands) == s1;
    RunSnoc(EMPTY, commands, CreateConversation(c, "t", Some(p), None, UseAndLearn));
    commands := commands + [CreateConversation(c, "t", Some(p), None, UseAndLearn)];
    var s2 := s1.(conversations := map[c := row], workspace := EMPTY.workspace.(selectedConversation := Some(c)));
    assert Run(EMPTY, commands) == s2;
    commands := ArchiveAndRestore(commands, p, c);
  }

  lemma {:induction false} RunNothing()
    ensures Run(EMPTY, []) == EMPTY
  {
  }

  lemma {:induction false} ArchiveAlone(s: Store, c: Id)
    requires s.conversations.Keys == {c} && s.conversations[c].status == Active && s.turns == map[]
    ensures var s' := ConversationStep(s, ArchiveConversation(c)).0;
            && s'.projects == s.projects && s'.conversations.Keys == {c}
            && s'.conversations[c] == s.conversations[c].(status := Archived)
  {
  }

  lemma {:induction false} RestoreAlone(s: Store, c: Id)
    requires c in s.conversations && s.conversations[c].status == Archived
    ensures var s' := ConversationStep(s, RestoreConversation(c)).0;
            && s'.projects == s.projects && c in s'.conversations
            && s'.conversations[c] == s.conversations[c].(status := Active)
  {
  }

  lemma {:induction false} ArchiveAndRestore(before: seq<Command>, p: Id, c: Id) returns (commands: seq<Command>)
    requires var s := Run(EMPTY, before);
             && AtRevision(s, p, 1, Active) && s.conversations.Keys == {c} && s.turns == map[]
             && s.conversations[c].status == Active && s.conversations[c].project == Some(p)
    ensures var s := Run(EMPTY, commands);
            && ActiveConversation(s, c) && s.conversations[c].project == Some(p)
            && p in s.projects && s.projects[p].status == Archived
  {
    hide Run, ConversationStep, RootsOf;
    commands := before + [ArchiveConversation(c)];
    ArchiveAlone(Run(EMPTY, before), c);
    RunSnoc(EMPTY, before, ArchiveConversation(c));
    RunSnoc(EMPTY, commands, ArchiveProject(p, 1));
    RunSnoc(EMPTY, commands + [ArchiveProject(p, 1)], RestoreConversation(c));
    RestoreAlone(Run(EMPTY, commands + [ArchiveProject(p, 1)]), c);
    commands := commands + [ArchiveProject(p, 1)] + [RestoreConversation(c)];
  }

  // -------------------------------------------------------------- revision

  /** Revisions only grow, and the same revision is the same row and the same read roots. */
  ghost predicate RevisionLaw(s: Store, s': Store, p: Id) {
    && p in s.projects && p in s'.projects
    && s.projects[p].revision <= s'.projects[p].revision
    && (s.projects[p].revision == s'.projects[p].revision ==>
          s'.projects[p] == s.projects[p] && RootsOf(s', p) == RootsOf(s, p))
  }

  ghost predicate LivesThrough(s: Store, commands: seq<Command>, p: Id)
    decreases |commands|
  {
    p in s.projects && (commands != [] ==> LivesThrough(Step(s, commands[0]).0, commands[1..], p))
  }

  lemma {:induction false} StepRevision(s: Store, c: Command, p: Id)
    requires p in s.projects && p in Step(s, c).0.projects
    ensures RevisionLaw(s, Step(s, c).0, p)
  {
    hide TurnStep, ConversationStep, SelectionStep, ProjectStep, RevisionLaw;
    if IsProjectCommand(c) {
      ProjectStepRevision(s, c, p);
    } else {
      OtherStepRevision(s, c, p);
    }
  }

  lemma {:induction false} ProjectStepRevision(s: Store, c: Command, p: Id)
    requires IsProjectCommand(c) && p in s.projects && p in ProjectStep(s, c).0.projects
    ensures RevisionLaw(s, ProjectStep(s, c).0, p)
  {
    hide RootsOf;
    var s' := ProjectStep(s, c).0;
    if s' == s {
    } else if c.id != p {
      ElsewhereSame(s, c, p);
    } else if !c.AddReadRoot? && !c.RemoveReadRoot? {
      SameRoots(s, s', p);
    }
  }

  lemma {:induction false} ElsewhereSame(s: Store, c: Command, p: Id)
    requires IsProjectCommand(c) && c.id != p
    ensures RootsOf(ProjectStep(s, c).0, p) == RootsOf(s, p)
  {
    hide RootsOf, ProjectStep;
    RootsStep(s, c);
    RootsAgree(s, ProjectStep(s, c).0, p);
  }

  /** A project command adds or removes read roots of its own project only. */
  lemma {:induction false} RootsStep(s: Store, c: Command)
    requires IsProjectCommand(c)
    ensures var roots, roots' := s.readRoots, ProjectStep(s, c).0.readRoots;
            && (forall r | r in roots && r !in roots' :: roots[r].project == c.id)
            && (forall r | r in roots' && r !in roots :: roots'[r].project == c.id)
            && (forall r | r in roots' && r in roots :: roots'[r] == roots[r])
  {
    hide RootsOf, AtRevision, ActiveConversation;
  }

  lemma {:induction false} RootsAgree(s: Store, s': Store, p: Id)
    requires forall r | r in s.readRoots && s.readRoots[r].project == p :: r in s'.readRoots
    requires forall r | r in s'.readRoots && s'.readRoots[r].project == p :: r in s.readRoots
    requires forall r | r in s'.readRoots && r in s.readRoots :: s'.readRoots[r] == s.readRoots[r]
    ensures RootsOf(s', p) == RootsOf(s, p)
  {
  }

  lemma {:induction false} OtherStepRevision(s: Store, c: Command, p: Id)
    requires !IsProjectCommand(c) && p in s.projects && p in Step(s, c).0.projects
    ensures RevisionLaw(s, Step(s, c).0, p)
  {
    hide Step, RootsOf;
    var s' := Step(s, c).0;
    assert s'.readRoots == s.readRoots && s'.projects[p] == s.projects[p] by { OtherStepsLeaveProjects(s, c, p); }
    SameRoots(s, s', p);
  }

  lemma {:induction false} OtherStepsLeaveProjects(s: Store, c: Command, p: Id)
    requires !IsProjectCommand(c) && p in s.projects
    ensures var s' := Step(s, c).0; s'.readRoots == s.readRoots && p in s'.projects && s'.projects[p] == s.projects[p]
  {
    hide TurnStep, ConversationStep, SelectionStep, ProjectStep;
    if IsTurnCommand(c) {
      TurnStepsLeaveProjects(s, c);
    } else if IsConversationCommand(c) {
      ConversationStepsLeaveProjects(s, c);
    } else {
      SelectionStepsLeaveProjects(s, c, p);
    }
  }

  lemma {:induction false} TurnStepsLeaveProjects(s: Store, c: Command)
    requires IsTurnCommand(c)
    ensures TurnStep(s, c).0.readRoots == s.readRoots && TurnStep(s, c).0.projects == s.projects
  {
    hide Insertable, MaxSequence, BegunReply, FindItem, TurnItems, IsAnswer, HasRunningTurn, ActiveConversation;
  }

  lemma {:induction false} ConversationStepsLeaveProjects(s: Store, c: Command)
    requires IsConversationCommand(c)
    ensures ConversationStep(s, c).0.readRoots == s.readRoots && ConversationStep(s, c).0.projects == s.projects
  {
    hide HasRunningTurn, ActiveConversation, ActiveProject;
  }

  lemma {:induction false} SelectionStepsLeaveProjects(s: Store, c: Command, p: Id)
    requires IsSelectionCommand(c) && p in s.projects
    ensures var s' := SelectionStep(s, c).0; s'.readRoots == s.readRoots && p in s'.projects && s'.projects[p] == s.projects[p]
  {
    hide HasRunningTurn, ActiveConversation, ActiveProject, ProfilesOf, WithoutProfiles;
  }

  lemma {:induction false} SameRoots(s: Store, s': Store, p: Id)
    requires s'.readRoots == s.readRoots
    ensures RootsOf(s', p) == RootsOf(s, p)
  {
  }

  /** Across any run in which the project lives, its revision determines its scope. */
  lemma {:induction false} RevisionDeterminesScope(s: Store, commands: seq<Command>, p: Id)
    requires LivesThrough(s, commands, p)
    ensures RevisionLaw(s, Run(s, commands), p)
    decreases |commands|
  {
    hide Step, RootsOf;
    if commands != [] {
      var s1 := Step(s, commands[0]).0;
      StepRevision(s, commands[0], p);
      RevisionDeterminesScope(s1, commands[1..], p);
    }
  }

  /** Two changes that expect the same revision cannot both succeed while the project lives. */
  lemma {:induction false} NoSecondChangeAtARevision(s: Store, c: Command, commands: seq<Command>, d: Command)
    requires IsProjectCommand(c) && IsProjectCommand(d) && d.id == c.id && d.expected == c.expected
    requires !Step(s, c).1.Rejected? && LivesThrough(Step(s, c).0, commands, c.id)
    ensures var s2 := Run(Step(s, c).0, commands);
            Step(s2, d).0 == s2 && Step(s2, d).1.Rejected?
  {
    hide Run, RootsOf, ProjectStep, TurnStep, ConversationStep, SelectionStep, LivesThrough;
    var s1 := Step(s, c).0;
    assert c.id in s1.projects && c.id in Run(s1, commands).projects by { LivesAtEnds(s1, commands, c.id); }
    RevisionDeterminesScope(s1, commands, c.id);
    ChangeRaisesRevision(s, c);
    WrongRevisionIsRejected(Run(s1, commands), d);
  }

  lemma {:induction false} LivesAtEnds(s: Store, commands: seq<Command>, p: Id)
    requires LivesThrough(s, commands, p)
    ensures p in s.projects && p in Run(s, commands).projects
    decreases |commands|
  {
    hide Step;
    if commands != [] {
      LivesAtEnds(Step(s, commands[0]).0, commands[1..], p);
    }
  }

  lemma {:induction false} ChangeRaisesRevision(s: Store, c: Command)
    requires IsProjectCommand(c) && !ProjectStep(s, c).1.Rejected? && c.id in ProjectStep(s, c).0.projects
    ensures ProjectStep(s, c).0.projects[c.id].revision == c.expected + 1
  {
    hide RootsOf;
  }

  lemma {:induction false} WrongRevisionIsRejected(s: Store, d: Command)
    requires IsProjectCommand(d) && d.id in s.projects && s.projects[d.id].revision != d.expected
    ensures ProjectStep(s, d).0 == s && ProjectStep(s, d).1.Rejected?
  {
    hide RootsOf;
  }
}
