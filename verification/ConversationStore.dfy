/** The store object: its tables are fields, every method is one transaction, and each is
    proved to be exactly the step of ConversationModel. */
module ConversationStore {
  import opened Whitespace
  import opened Wrappers
  import opened ConversationCatalog
  import opened ConversationModel
  import ConversationRuns
  import opened ConversationTranscript

  ghost predicate Sound(s: Store) {
    Transcript(s) && Catalog(s)
  }

  lemma {:induction false} StepKeeps(s: Store, c: Command)
    requires Sound(s)
    ensures Sound(Step(s, c).0)
    ensures IsTurnCommand(c) ==> Clean(Step(s, c).1)
  {
    hide Transcript, Catalog, Step;
    StepKeepsTranscript(s, c);
    StepKeepsCatalog(s, c);
    if IsTurnCommand(c) { StepIsClean(s, c); }
  }

  lemma {:induction false} EmptyIsSound()
    ensures Sound(EMPTY)
  {
    assert forall p :: RootsOf(EMPTY, p) == map[];
  }

  lemma {:induction false} TerminalizeLeavesCatalog(s: Store, turnId: Id, status: TurnStatus, error: Option<string>)
    requires Catalog(s)
    ensures Catalog(Terminalize(s, turnId, status, error).0)
  {
    SameTablesKeep(s, Terminalize(s, turnId, status, error).0);
  }

  class ConversationStore {
    var projects: map<Id, Project>
    var readRoots: map<Id, ReadRoot>
    var conversations: map<Id, Conversation>
    var connections: map<Id, Connection>
    var profiles: map<Id, Profile>
    var workspace: Workspace
    var turns: map<Id, Turn>
    var items: seq<Item>

    function View(): Store
      reads this
    {
      Store(projects, readRoots, conversations, connections, profiles, workspace, turns, items)
    }

    /** What every reachable store keeps, the object keeps too. */
    ghost predicate Valid()
      reads this
    {
      Sound(View())
    }

    constructor ()
      ensures Valid() && View() == EMPTY
    {
      hide Sound;
      EmptyIsSound();
      projects, readRoots, conversations, connections, profiles := map[], map[], map[], map[], map[];
      workspace := Workspace(None, None, None);
      turns, items := map[], [];
    }

    // ---------------------------------------------------------------- turns

    method BeginChatTurn(turnId: Id, id: Id, message: string, provider: ProviderBinding) returns (reply: Reply)
      requires Valid()
      modifies this`turns, this`items
      ensures Valid() && (View(), reply) == Step(old(View()), BeginTurn(turnId, id, message, provider))
      ensures Clean(reply)
    {
      hide Sound;
      StepKeeps(View(), BeginTurn(turnId, id, message, provider));
      hide BegunReply, Insertable, MaxSequence;
      var digest := Digest(message);
      if turnId in turns {
        var existing := turns[turnId];
        if existing.conversation != id || existing.requestDigest != digest || existing.provider != provider {
          return Rejected(ConversationTurnIdempotencyPayloadDrift);
        }
        return BegunReply(View(), turnId);
      }
      if HasRunningTurn(View(), id) {
        return Rejected(ConversationAlreadyHasRunningTurn);
      }
      if id !in conversations || conversations[id].status != Active {
        return Rejected(ConversationMissingOrInactive);
      }
      var item := Item(UserItem(turnId), id, turnId, MaxSequence(items, id) + 1, UserMessage, message, digest);
      if !Insertable(items, item) {
        return Rejected(ConstraintViolated);
      }
      turns := turns[turnId := Turn(id, Running, digest, provider, None)];
      items := items + [item];
      reply := BegunReply(View(), turnId);
    }

    method AppendWorkSteering(steering: Id, id: Id, turnId: Id, content: string) returns (reply: Reply)
      requires Valid()
      modifies this`items
      ensures Valid() && (View(), reply) == Step(old(View()), AppendSteering(steering, id, turnId, content))
      ensures Clean(reply)
    {
      hide Sound;
      StepKeeps(View(), AppendSteering(steering, id, turnId, content));
      hide FindItem, Insertable, MaxSequence;
      var found := FindItem(items, SteeringItem(turnId, steering));
      if found.Some? {
        var existing := found.value;
        if existing.conversation != id || existing.turn != turnId || existing.kind != UserSteering
           || existing.content != content || existing.digest != Digest(content) {
          return Rejected(ConversationSteeringIdempotencyPayloadDrift);
        }
        return Steered(existing, true);
      }
      if turnId !in turns || turns[turnId].conversation != id || turns[turnId].status != Running {
        return Rejected(ConversationSteeringTargetNotRunning);
      }
      var item := Item(SteeringItem(turnId, steering), id, turnId, MaxSequence(items, id) + 1, UserSteering, content, Digest(content));
      if !Insertable(items, item) {
        return Rejected(ConstraintViolated);
      }
      items := items + [item];
      reply := Steered(item, false);
    }

    method CompleteChatTurn(turnId: Id, message: string) returns (reply: Reply)
      requires Valid()
      modifies this`turns, this`items
      ensures Valid() && (View(), reply) == Step(old(View()), CompleteTurn(turnId, message))
      ensures Clean(reply)
    {
      hide Sound;
      StepKeeps(View(), CompleteTurn(turnId, message));
      hide TurnItems, Insertable, MaxSequence;
      if turnId !in turns {
        return Rejected(ConversationTurnMissing);
      }
      var turn := turns[turnId];
      if turn.status == Completed {
        var rows := TurnItems(View(), turnId);
        if exists i | i in rows :: IsAnswer(i, message) {
          return TurnSnapshot(turn, rows);
        }
        return Rejected(ConversationTurnTerminalPayloadDrift);
      }
      if turn.status != Running {
        return Rejected(ConversationTurnNotRunning);
      }
      var item := Item(AssistantItem(turnId), turn.conversation, turnId, MaxSequence(items, turn.conversation) + 1,
                       AssistantMessage, message, Digest(message));
      if !Insertable(items, item) {
        return Rejected(ConstraintViolated);
      }
      items := items + [item];
      turns := turns[turnId := turn.(status := Completed)];
      reply := TurnSnapshot(turns[turnId], TurnItems(View(), turnId));
    }

    method TerminalizeWithoutAssistant(turnId: Id, status: TurnStatus, error: Option<string>) returns (reply: Reply)
      modifies this`turns
      ensures (View(), reply) == Terminalize(old(View()), turnId, status, error)
      ensures old(Valid()) && (status == Failed || status == Cancelled) ==> Valid()
    {
      hide Transcript, Catalog;
      if Valid() && (status == Failed || status == Cancelled) {
        TerminalizeKeeps(View(), turnId, status, error);
        TerminalizeLeavesCatalog(View(), turnId, status, error);
      }
      if turnId !in turns {
        return Rejected(ConversationTurnMissing);
      }
      var existing := turns[turnId];
      if existing.status == status && existing.error == error {
        return TurnRow(existing);
      }
      if existing.status != Running {
        return Rejected(ConversationTurnNotRunning);
      }
      turns := turns[turnId := existing.(status := status, error := error)];
      reply := TurnRow(turns[turnId]);
    }

    method FailChatTurn(turnId: Id, error: string) returns (reply: Reply)
      requires Valid()
      modifies this`turns
      ensures Valid() && (View(), reply) == Step(old(View()), FailTurn(turnId, error))
      ensures Clean(reply)
    {
      hide Sound;
      StepKeeps(View(), FailTurn(turnId, error));
      reply := TerminalizeWithoutAssistant(turnId, Failed, Some(error));
    }

    method CancelChatTurn(turnId: Id) returns (reply: Reply)
      requires Valid()
      modifies this`turns
      ensures Valid() && (View(), reply) == Step(old(View()), CancelTurn(turnId))
      ensures Clean(reply)
    {
      hide Sound;
      StepKeeps(View(), CancelTurn(turnId));
      reply := TerminalizeWithoutAssistant(turnId, Cancelled, None);
    }

    method InterruptIncompleteTurns() returns (reply: Reply)
      requires Valid()
      modifies this`turns
      ensures Valid() && (View(), reply) == Step(old(View()), InterruptIncomplete)
      ensures Clean(reply)
    {
      hide Sound;
      StepKeeps(View(), InterruptIncomplete);
      var running := set t | t in turns && turns[t].status == Running;
      turns := map t | t in turns :: if t in running
        then turns[t].(status := Interrupted, error := Some("process_restarted")) else turns[t];
      assert turns == Interrupt(old(View())).0.turns;
      reply := InterruptedCount(|running|);
    }

    method ListModelContextItems(id: Id, current: Id, limit: nat) returns (rows: Option<seq<Item>>)
      ensures rows == ConversationRuns.ModelContext(View(), id, current, limit)
    {
      if current !in turns || turns[current].conversation != id || turns[current].status != Running {
        return None;
      }
      var eligible := Filter(ConversationRuns.Eligible(turns, id, current), items);
      var n := if limit < 1 then 1 else if limit > 1000 then 1000 else limit;
      rows := Some(if |eligible| <= n then eligible else eligible[|eligible| - n..]);
    }

    // ------------------------------------------------------------- projects

    method CreateProjectRow(id: Id, name: string, root: Option<string>) returns (reply: Reply)
      requires Valid()
      modifies this`projects
      ensures Valid() && (View(), reply) == Step(old(View()), CreateProject(id, name, root))
    {
      hide Sound;
      StepKeeps(View(), CreateProject(id, name, root));
      if id in projects {
        return Rejected(ConstraintViolated);
      }
      projects := projects[id := Project(Trim(name), root, 1, Active)];
      reply := Accepted;
    }

    method CreateProjectAsNewConversationScope(id: Id, name: string, root: string) returns (reply: Reply)
      requires Valid()
      modifies this`projects, this`workspace
      ensures Valid() && (View(), reply) == Step(old(View()), CreateProjectAsScope(id, name, root))
    {
      hide Sound;
      StepKeeps(View(), CreateProjectAsScope(id, name, root));
      if id in projects {
        return Rejected(ConstraintViolated);
      }
      projects := projects[id := Project(Trim(name), Some(root), 1, Active)];
      workspace := workspace.(newConversationProject := Some(id));
      reply := Accepted;
    }

    method UpdateScope(id: Id, name: string, root: Option<string>, expected: nat) returns (reply: Reply)
      requires Valid()
      modifies this`projects
      ensures Valid() && (View(), reply) == Step(old(View()), UpdateProjectScope(id, name, root, expected))
    {
      hide Sound;
      StepKeeps(View(), UpdateProjectScope(id, name, root, expected));
      if expected == 0 {
        return Rejected(ProjectRevisionInvalid);
      }
      if !AtRevision(View(), id, expected, Active) {
        return Rejected(ProjectScopeRevisionConflict);
      }
      projects := projects[id := projects[id].(name := Trim(name), workspaceRoot := root, revision := expected + 1)];
      reply := Accepted;
    }

    method AddProjectReadRoot(id: Id, rootId: Id, name: string, path: string, expected: nat) returns (reply: Reply)
      requires Valid()
      modifies this`projects, this`readRoots
      ensures Valid() && (View(), reply) == Step(old(View()), AddReadRoot(id, rootId, name, path, expected))
    {
      hide Sound;
      StepKeeps(View(), AddReadRoot(id, rootId, name, path, expected));
      hide RootsOf;
      if expected == 0 {
        return Rejected(ProjectRevisionInvalid);
      }
      if |RootsOf(View(), id)| >= MAX_READ_ROOTS {
        return Rejected(ProjectReadRootLimitReached);
      }
      if !AtRevision(View(), id, expected, Active) {
        return Rejected(ProjectScopeRevisionConflict);
      }
      if rootId in readRoots || exists r | r in readRoots :: readRoots[r].project == id && readRoots[r].path == path {
        return Rejected(ConstraintViolated);
      }
      projects := projects[id := projects[id].(revision := expected + 1)];
      readRoots := readRoots[rootId := ReadRoot(id, Trim(name), path)];
      reply := Accepted;
    }

    method RemoveProjectReadRoot(id: Id, rootId: Id, expected: nat) returns (reply: Reply)
      requires Valid()
      modifies this`projects, this`readRoots
      ensures Valid() && (View(), reply) == Step(old(View()), RemoveReadRoot(id, rootId, expected))
    {
      hide Sound;
      StepKeeps(View(), RemoveReadRoot(id, rootId, expected));
      hide RootsOf;
      if expected == 0 {
        return Rejected(ProjectRevisionInvalid);
      }
      if !AtRevision(View(), id, expected, Active) || rootId !in readRoots || readRoots[rootId].project != id {
        return Rejected(ProjectReadRootRemoveUnavailable);
      }
      projects := projects[id := projects[id].(revision := expected + 1)];
      readRoots := readRoots - {rootId};
      reply := Accepted;
    }

    method Archive(id: Id, expected: nat) returns (reply: Reply)
      requires Valid()
      modifies this`projects, this`workspace
      ensures Valid() && (View(), reply) == Step(old(View()), ArchiveProject(id, expected))
    {
      hide Sound;
      StepKeeps(View(), ArchiveProject(id, expected));
      hide RootsOf;
      if expected == 0 {
        return Rejected(ProjectRevisionInvalid);
      }
      if exists c | c in conversations :: conversations[c].project == Some(id) && conversations[c].status == Active {
        return Rejected(ProjectArchiveActiveConversationsPresent);
      }
      if !AtRevision(View(), id, expected, Active) {
        return Rejected(ProjectArchiveRevisionConflict);
      }
      projects := projects[id := projects[id].(status := Archived, revision := expected + 1)];
      if workspace.newConversationProject == Some(id) {
        workspace := workspace.(newConversationProject := None);
      }
      reply := Accepted;
    }

    method Restore(id: Id, expected: nat) returns (reply: Reply)
      requires Valid()
      modifies this`projects
      ensures Valid() && (View(), reply) == Step(old(View()), RestoreProject(id, expected))
    {
      hide Sound;
      StepKeeps(View(), RestoreProject(id, expected));
      if expected == 0 {
        return Rejected(ProjectRevisionInvalid);
      }
      if !AtRevision(View(), id, expected, Archived) {
        return Rejected(ProjectRestoreRevisionConflict);
      }
      projects := projects[id := projects[id].(status := Active, revision := expected + 1)];
      reply := Accepted;
    }

    method DeleteArchivedProject(id: Id, expected: nat) returns (reply: Reply)
      requires Valid()
      modifies this`projects, this`readRoots
      ensures Valid() && (View(), reply) == Step(old(View()), DeleteProject(id, expected))
    {
      hide Sound;
      StepKeeps(View(), DeleteProject(id, expected));
      if expected == 0 {
        return Rejected(ProjectRevisionInvalid);
      }
      if !AtRevision(View(), id, expected, Archived)
         || (exists c | c in conversations :: conversations[c].project == Some(id))
         || workspace.newConversationProject == Some(id) {
        return Rejected(ProjectDeleteNotEligible);
      }
      projects := projects - {id};
      readRoots := map r | r in readRoots && readRoots[r].project != id :: readRoots[r];
      reply := Accepted;
    }

    // -------------------------------------------------------- conversations

    method CreateConversationWithAdmission(id: Id, title: string, project: Option<Id>, skill: Option<string>, memory: MemoryMode)
      returns (reply: Reply)
      requires Valid()
      modifies this`conversations, this`workspace
      ensures Valid() && (View(), reply) == Step(old(View()), CreateConversation(id, title, project, skill, memory))
    {
      hide Sound;
      StepKeeps(View(), CreateConversation(id, title, project, skill, memory));
      if project.Some? && !ActiveProject(View(), project.value) {
        return Rejected(ConversationAdmissionProjectUnavailable);
      }
      if id in conversations {
        return Rejected(ConstraintViolated);
      }
      conversations := conversations[id := Conversation(Trim(title), project, skill, workspace.selectedProfile, memory, Active)];
      workspace := workspace.(selectedConversation := Some(id));
      reply := Accepted;
    }

    method AssignConversationProject(id: Id, project: Option<Id>) returns (reply: Reply)
      requires Valid()
      modifies this`conversations
      ensures Valid() && (View(), reply) == Step(old(View()), AssignProject(id, project))
    {
      hide Sound;
      StepKeeps(View(), AssignProject(id, project));
      if !ActiveConversation(View(), id) || (project.Some? && !ActiveProject(View(), project.value)) || HasRunningTurn(View(), id) {
        return Rejected(ConversationProjectAssignmentUnavailable);
      }
      conversations := conversations[id := conversations[id].(project := project)];
      reply := Accepted;
    }

    method ArchiveConversationRow(id: Id) returns (reply: Reply)
      requires Valid()
      modifies this`conversations, this`workspace
      ensures Valid() && (View(), reply) == Step(old(View()), ArchiveConversation(id))
    {
      hide Sound;
      StepKeeps(View(), ArchiveConversation(id));
      if !ActiveConversation(View(), id) || HasRunningTurn(View(), id) {
        return Rejected(ConversationArchiveNotEligible);
      }
      conversations := conversations[id := conversations[id].(status := Archived)];
      if workspace.selectedConversation == Some(id) {
        workspace := workspace.(selectedConversation := None);
      }
      reply := Accepted;
    }

    method RestoreConversationRow(id: Id) returns (reply: Reply)
      requires Valid()
      modifies this`conversations
      ensures Valid() && (View(), reply) == Step(old(View()), RestoreConversation(id))
    {
      hide Sound;
      StepKeeps(View(), RestoreConversation(id));
      if id !in conversations || conversations[id].status != Archived {
        return Rejected(ConversationRestoreNotEligible);
      }
      conversations := conversations[id := conversations[id].(status := Active)];
      reply := Accepted;
    }

    method DeleteConversationRow(id: Id) returns (reply: Reply)
      requires Valid()
      modifies this`conversations, this`workspace
      ensures Valid() && (View(), reply) == Step(old(View()), DeleteConversation(id))
    {
      hide Sound;
      StepKeeps(View(), DeleteConversation(id));
      if id !in conversations || conversations[id].status != Archived
         || (exists t | t in turns :: turns[t].conversation == id)
         || (exists i | i in items :: i.conversation == id) {
        return Rejected(ConversationDeleteNotEligible);
      }
      conversations := conversations - {id};
      if workspace.selectedConversation == Some(id) {
        workspace := workspace.(selectedConversation := None);
      }
      reply := Accepted;
    }

    method RenameConversationRow(id: Id, title: string) returns (reply: Reply)
      requires Valid()
      modifies this`conversations
      ensures Valid() && (View(), reply) == Step(old(View()), RenameConversation(id, title))
    {
      hide Sound;
      StepKeeps(View(), RenameConversation(id, title));
      if !ActiveConversation(View(), id) {
        return Rejected(ConversationNotFound);
      }
      conversations := conversations[id := conversations[id].(title := Trim(title))];
      reply := Accepted;
    }

    method SetSkill(id: Id, skill: Option<string>) returns (reply: Reply)
      requires Valid()
      modifies this`conversations
      ensures Valid() && (View(), reply) == Step(old(View()), SetSelectedSkill(id, skill))
    {
      hide Sound;
      StepKeeps(View(), SetSelectedSkill(id, skill));
      if !ActiveConversation(View(), id) {
        return Rejected(ConversationNotFound);
      }
      conversations := conversations[id := conversations[id].(skill := skill)];
      reply := Accepted;
    }

    method SetMemory(id: Id, memory: MemoryMode) returns (reply: Reply)
      requires Valid()
      modifies this`conversations
      ensures Valid() && (View(), reply) == Step(old(View()), SetMemoryMode(id, memory))
    {
      hide Sound;
      StepKeeps(View(), SetMemoryMode(id, memory));
      if !ActiveConversation(View(), id) {
        return Rejected(ConversationNotFound);
      }
      conversations := conversations[id := conversations[id].(memory := memory)];
      reply := Accepted;
    }

    // ------------------------------------------------- providers, selections

    method SelectNewConversationProject(project: Option<Id>) returns (reply: Reply)
      requires Valid()
      modifies this`workspace
      ensures Valid() && (View(), reply) == Step(old(View()), SetNewConversationProject(project))
    {
      hide Sound;
      StepKeeps(View(), SetNewConversationProject(project));
      if project.Some? && !ActiveProject(View(), project.value) {
        return Rejected(WorkspaceProjectSelectionUnavailable);
      }
      workspace := workspace.(newConversationProject := project);
      reply := Accepted;
    }

    method SelectConversation(id: Id) returns (reply: Reply)
      requires Valid()
      modifies this`workspace
      ensures Valid() && (View(), reply) == Step(old(View()), SetSelectedConversation(id))
    {
      hide Sound;
      StepKeeps(View(), SetSelectedConversation(id));
      if !ActiveConversation(View(), id) {
        return Rejected(ConversationSelectionUnavailable);
      }
      workspace := workspace.(selectedConversation := Some(id));
      reply := Accepted;
    }

    method UpsertProviderModelProfile(connectionId: Id, connection: Connection, profileId: Id, profile: Profile) returns (reply: Reply)
      requires Valid()
      modifies this`connections, this`profiles
      ensures Valid() && (View(), reply) == Step(old(View()), UpsertProfile(connectionId, connection, profileId, profile))
    {
      hide Sound;
      StepKeeps(View(), UpsertProfile(connectionId, connection, profileId, profile));
      if profile.connection != connectionId {
        return Rejected(ProviderProfileConnectionMismatch);
      }
      if exists p | p in profiles :: p != profileId && profiles[p].connection == connectionId && profiles[p].model == profile.model {
        return Rejected(ConstraintViolated);
      }
      connections := connections[connectionId := connection];
      profiles := profiles[profileId := profile];
      reply := Accepted;
    }

    method DeleteProviderConnection(id: Id) returns (reply: Reply)
      requires Valid()
      modifies this`connections, this`profiles, this`conversations, this`workspace
      ensures Valid() && (View(), reply) == Step(old(View()), DeleteConnection(id))
    {
      hide Sound;
      StepKeeps(View(), DeleteConnection(id));
      hide TurnStep, ProjectStep, ConversationStep, HasRunningTurn, ActiveProject, ActiveConversation, Detached, ProfilesOf, WithoutProfiles;
      if id !in connections {
        return Rejected(ProviderConnectionNotFound);
      }
      var gone := ProfilesOf(View(), id);
      workspace := workspace.(selectedProfile := WithoutProfiles(workspace.selectedProfile, gone));
      conversations := Detached(conversations, gone);
      connections := connections - {id};
      profiles := profiles - gone;
      reply := Accepted;
    }

    method SetSelectedProviderProfile(conversation: Option<Id>, profileId: Id) returns (reply: Reply)
      requires Valid()
      modifies this`conversations, this`workspace
      ensures Valid() && (View(), reply) == Step(old(View()), SetSelectedProfile(conversation, profileId))
    {
      hide Sound;
      StepKeeps(View(), SetSelectedProfile(conversation, profileId));
      if conversation.Some? {
        var id := conversation.value;
        if !ActiveConversation(View(), id) || profileId !in profiles || HasRunningTurn(View(), id) {
          return Rejected(ProviderProfileSelectionUnavailable);
        }
        conversations := conversations[id := conversations[id].(profile := Some(profileId))];
      } else {
        if profileId !in profiles {
          return Rejected(ProviderProfileSelectionUnavailable);
        }
        workspace := workspace.(selectedProfile := Some(profileId));
      }
      reply := Accepted;
    }
  }
}
