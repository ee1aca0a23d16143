/** The conversation store as a value: its tables, and every public command as one
    atomic step. A rejected command leaves all tables as they were. */
module ConversationModel {
  import opened Whitespace
  import opened Wrappers

  type Id = string

  // ------------------------------------------------------------------ rows

  datatype LifecycleStatus = Active | Archived

  datatype Project = Project(name: string, workspaceRoot: Option<string>, revision: nat, status: LifecycleStatus)

  datatype ReadRoot = ReadRoot(project: Id, name: string, path: string)

  datatype MemoryMode = UseAndLearn | UseOnly | MemoryOff

  datatype Conversation = Conversation(
    title: string,
    project: Option<Id>,
    skill: Option<string>,
    profile: Option<Id>,
    memory: MemoryMode,
    status: LifecycleStatus)

  datatype Connection = Connection(provider: string, endpoint: string)

  datatype Profile = Profile(connection: Id, model: string, capabilities: string)

  datatype Workspace = Workspace(
    newConversationProject: Option<Id>,
    selectedConversation: Option<Id>,
    selectedProfile: Option<Id>)

  /** A collision-free digest is as good as its content. */
  datatype Digest = Digest(content: string)

  datatype ProviderBinding = ProviderBinding(
    profile: string,
    provider: string,
    model: string,
    endpointClass: string,
    configGeneration: string,
    reasoningEffort: Option<string>)

  datatype TurnStatus = Running | Completed | Failed | Cancelled | Interrupted

  datatype Turn = Turn(
    conversation: Id,
    status: TurnStatus,
    requestDigest: Digest,
    provider: ProviderBinding,
    error: Option<string>)

  /** Item ids are digests of these parts. */
  datatype ItemId = UserItem(turn: Id) | SteeringItem(turn: Id, steering: Id) | AssistantItem(turn: Id)

  datatype ItemKind = UserMessage | UserSteering | AssistantMessage

  datatype Item = Item(
    id: ItemId,
    conversation: Id,
    turn: Id,
    sequence: nat,
    kind: ItemKind,
    content: string,
    digest: Digest)

  /** Items keep their rows in insertion order; the other tables are keyed. */
  datatype Store = Store(
    projects: map<Id, Project>,
    readRoots: map<Id, ReadRoot>,
    conversations: map<Id, Conversation>,
    connections: map<Id, Connection>,
    profiles: map<Id, Profile>,
    workspace: Workspace,
    turns: map<Id, Turn>,
    items: seq<Item>)

  const EMPTY := Store(map[], map[], map[], map[], map[], Workspace(None, None, None), map[], [])

  const MAX_READ_ROOTS: nat := 8

  // -------------------------------------------------------------- commands

  /** The error codes, under their own names; the first stands for any violated key. */
  datatype Error =
    | ConstraintViolated
    | ConversationAdmissionProjectUnavailable
    | ConversationAlreadyHasRunningTurn
    | ConversationArchiveNotEligible
    | ConversationDeleteNotEligible
    | ConversationMissingOrInactive
    | ConversationNotFound
    | ConversationProjectAssignmentUnavailable
    | ConversationRestoreNotEligible
    | ConversationSelectionUnavailable
    | ConversationSteeringIdempotencyPayloadDrift
    | ConversationSteeringTargetNotRunning
    | ConversationTurnIdempotencyPayloadDrift
    | ConversationTurnMissing
    | ConversationTurnNotRunning
    | ConversationTurnTerminalPayloadDrift
    | ConversationTurnUserItemMissing
    | ConversationTurnUserItemOwnerMismatch
    | ProjectArchiveActiveConversationsPresent
    | ProjectArchiveRevisionConflict
    | ProjectDeleteNotEligible
    | ProjectReadRootLimitReached
    | ProjectReadRootRemoveUnavailable
    | ProjectRestoreRevisionConflict
    | ProjectRevisionInvalid
    | ProjectScopeRevisionConflict
    | ProviderConnectionNotFound
    | ProviderProfileConnectionMismatch
    | ProviderProfileSelectionUnavailable
    | WorkspaceProjectSelectionUnavailable

  datatype Command =
    | CreateConversation(id: Id, title: string, project: Option<Id>, skill: Option<string>, memory: MemoryMode)
    | CreateProject(id: Id, name: string, root: Option<string>)
    | CreateProjectAsScope(id: Id, name: string, scopeRoot: string)
    | SetNewConversationProject(project: Option<Id>)
    | SetSelectedConversation(id: Id)
    | UpsertProfile(connectionId: Id, connection: Connection, profileId: Id, profile: Profile)
    | DeleteConnection(connectionId: Id)
    | SetSelectedProfile(conversation: Option<Id>, profileId: Id)
    | AssignProject(id: Id, project: Option<Id>)
    | UpdateProjectScope(id: Id, name: string, root: Option<string>, expected: nat)
    | AddReadRoot(id: Id, rootId: Id, name: string, path: string, expected: nat)
    | RemoveReadRoot(id: Id, rootId: Id, expected: nat)
    | ArchiveProject(id: Id, expected: nat)
    | RestoreProject(id: Id, expected: nat)
    | DeleteProject(id: Id, expected: nat)
    | RenameConversation(id: Id, title: string)
    | SetSelectedSkill(id: Id, skill: Option<string>)
    | SetMemoryMode(id: Id, memory: MemoryMode)
    | ArchiveConversation(id: Id)
    | RestoreConversation(id: Id)
    | DeleteConversation(id: Id)
    | BeginTurn(turn: Id, conversationId: Id, message: string, provider: ProviderBinding)
    | AppendSteering(steering: Id, conversationId: Id, turn: Id, content: string)
    | CompleteTurn(turn: Id, message: string)
    | FailTurn(turn: Id, error: string)
    | CancelTurn(turn: Id)
    | InterruptIncomplete

  /** The proof that the store committed exactly this user item for this turn. */
  datatype UserProof = UserProof(conversation: Id, turn: Id, item: ItemId, digest: Digest, length: nat)

  datatype Reply =
    | Accepted
    | Begun(row: Turn, items: seq<Item>, proof: UserProof)
    | Steered(item: Item, replayed: bool)
    | TurnSnapshot(row: Turn, items: seq<Item>)
    | TurnRow(row: Turn)
    | InterruptedCount(count: nat)
    | Rejected(code: Error)

  // --------------------------------------------------------------- queries

  function Filter(keep: Item -> bool, items: seq<Item>): seq<Item> {
    if items == [] then []
    else
      var init, last := Filter(keep, items[..|items| - 1]), items[|items| - 1];
      if keep(last) then init + [last] else init
  }

  function OfTurn(turn: Id): Item -> bool { (i: Item) => i.turn == turn }

  function OfConversation(id: Id): Item -> bool { (i: Item) => i.conversation == id }

  function TurnItems(s: Store, turn: Id): seq<Item> { Filter(OfTurn(turn), s.items) }

  function ConversationItems(s: Store, id: Id): seq<Item> { Filter(OfConversation(id), s.items) }

  function MaxSequence(items: seq<Item>, id: Id): nat {
    if items == [] then 0
    else
      var last := items[|items| - 1];
      var m := MaxSequence(items[..|items| - 1], id);
      if last.conversation == id && last.sequence > m then last.sequence else m
  }

  predicate HasRunningTurn(s: Store, id: Id) {
    exists t | t in s.turns :: s.turns[t].conversation == id && s.turns[t].status == Running
  }

  predicate ActiveConversation(s: Store, id: Id) {
    id in s.conversations && s.conversations[id].status == Active
  }

  predicate ActiveProject(s: Store, id: Id) {
    id in s.projects && s.projects[id].status == Active
  }

  function RootsOf(s: Store, project: Id): map<Id, ReadRoot> {
    map r | r in s.readRoots && s.readRoots[r].project == project :: s.readRoots[r]
  }

  // ------------------------------------------------------------ turn steps

  /** The unique keys of the item table. */
  predicate Insertable(items: seq<Item>, item: Item) {
    forall r | r in items ::
      && r.id != item.id
      && !(r.conversation == item.conversation && r.sequence == item.sequence)
      && !(r.turn == item.turn && r.kind == item.kind && item.kind != UserSteering)
  }

  function ProofOf(turnId: Id, turn: Turn, items: seq<Item>): (r: Reply)
    ensures r.Begun? || r.Rejected?
  {
    if items == [] then Rejected(ConversationTurnUserItemMissing)
    else if items[0].kind != UserMessage then ProofOf(turnId, turn, items[1..])
    else
      var user := items[0];
      if user.conversation != turn.conversation || user.turn != turnId || user.digest != turn.requestDigest
      then Rejected(ConversationTurnUserItemOwnerMismatch)
      else Begun(turn, [], UserProof(user.conversation, user.turn, user.id, user.digest, |user.content|))
  }

  function BegunReply(s: Store, turnId: Id): Reply
    requires turnId in s.turns
  {
    var items := TurnItems(s, turnId);
    match ProofOf(turnId, s.turns[turnId], items)
    case Begun(row, _, proof) => Begun(row, items, proof)
    case rejected => rejected
  }

  function Begin(s: Store, turnId: Id, id: Id, message: string, provider: ProviderBinding): (Store, Reply) {
    var digest := Digest(message);
    if turnId in s.turns then
      var existing := s.turns[turnId];
      if existing.conversation != id || existing.requestDigest != digest || existing.provider != provider
      then (s, Rejected(ConversationTurnIdempotencyPayloadDrift))
      else (s, BegunReply(s, turnId))
    else if HasRunningTurn(s, id) then (s, Rejected(ConversationAlreadyHasRunningTurn))
    else if !ActiveConversation(s, id) then (s, Rejected(ConversationMissingOrInactive))
    else
      var item := Item(UserItem(turnId), id, turnId, MaxSequence(s.items, id) + 1, UserMessage, message, digest);
      if !Insertable(s.items, item) then (s, Rejected(ConstraintViolated))
      else
        var s' := s.(turns := s.turns[turnId := Turn(id, Running, digest, provider, None)], items := s.items + [item]);
        (s', BegunReply(s', turnId))
  }

  function FindItem(items: seq<Item>, id: ItemId): (r: Option<Item>)
    ensures r.Some? ==> r.value in items && r.value.id == id
    ensures r.None? ==> forall i | i in items :: i.id != id
  {
    if items == [] then None else if items[0].id == id then Some(items[0]) else FindItem(items[1..], id)
  }

  function Steer(s: Store, steering: Id, id: Id, turnId: Id, content: string): (Store, Reply) {
    var itemId := SteeringItem(turnId, steering);
    match FindItem(s.items, itemId)
    case Some(existing) =>
      if existing.conversation != id || existing.turn != turnId || existing.kind != UserSteering
         || existing.content != content || existing.digest != Digest(content)
      then (s, Rejected(ConversationSteeringIdempotencyPayloadDrift))
      else (s, Steered(existing, true))
    case None =>
      if !(turnId in s.turns && s.turns[turnId].conversation == id && s.turns[turnId].status == Running)
      then (s, Rejected(ConversationSteeringTargetNotRunning))
      else
        var item := Item(itemId, id, turnId, MaxSequence(s.items, id) + 1, UserSteering, content, Digest(content));
        if !Insertable(s.items, item) then (s, Rejected(ConstraintViolated))
        else (s.(items := s.items + [item]), Steered(item, false))
  }

  predicate IsAnswer(i: Item, message: string) {
    i.kind == AssistantMessage && i.digest == Digest(message) && i.content == message
  }

  function Complete(s: Store, turnId: Id, message: string): (Store, Reply) {
    if turnId !in s.turns then (s, Rejected(ConversationTurnMissing))
    else
      var turn := s.turns[turnId];
      if turn.status == Completed then
        if exists i | i in TurnItems(s, turnId) :: IsAnswer(i, message)
        then (s, TurnSnapshot(turn, TurnItems(s, turnId)))
        else (s, Rejected(ConversationTurnTerminalPayloadDrift))
      else if turn.status != Running then (s, Rejected(ConversationTurnNotRunning))
      else
        var id := turn.conversation;
        var item := Item(AssistantItem(turnId), id, turnId, MaxSequence(s.items, id) + 1,
                         AssistantMessage, message, Digest(message));
        if !Insertable(s.items, item) then (s, Rejected(ConstraintViolated))
        else
          var s' := s.(turns := s.turns[turnId := turn.(status := Completed)], items := s.items + [item]);
          (s', TurnSnapshot(s'.turns[turnId], TurnItems(s', turnId)))
  }

  function Terminalize(s: Store, turnId: Id, status: TurnStatus, error: Option<string>): (Store, Reply) {
    if turnId !in s.turns then (s, Rejected(ConversationTurnMissing))
    else
      var existing := s.turns[turnId];
      if existing.status == status && existing.error == error then (s, TurnRow(existing))
      else if existing.status != Running then (s, Rejected(ConversationTurnNotRunning))
      else
        var row := existing.(status := status, error := error);
        (s.(turns := s.turns[turnId := row]), TurnRow(row))
  }

  function AfterRestart(turn: Turn): Turn {
    if turn.status == Running then turn.(status := Interrupted, error := Some("process_restarted")) else turn
  }

  function Interrupt(s: Store): (Store, Reply) {
    (s.(turns := map t | t in s.turns :: AfterRestart(s.turns[t])),
     InterruptedCount(|set t | t in s.turns && s.turns[t].status == Running|))
  }

  // ------------------------------------------------ conversations, projects

  function Guard(accepted: bool, before: Store, after: Store, code: Error): (Store, Reply) {
    if accepted then (after, Accepted) else (before, Rejected(code))
  }

  function EditConversation(s: Store, id: Id, accepted: bool, edit: Conversation -> Conversation, code: Error): (Store, Reply) {
    if accepted && id in s.conversations
    then (s.(conversations := s.conversations[id := edit(s.conversations[id])]), Accepted)
    else (s, Rejected(code))
  }

  /** The compare-and-set every scope change goes through. */
  predicate AtRevision(s: Store, id: Id, expected: nat, status: LifecycleStatus) {
    id in s.projects && s.projects[id].revision == expected && s.projects[id].status == status
  }

  function Revised(s: Store, id: Id): Store
    requires id in s.projects
  {
    s.(projects := s.projects[id := s.projects[id].(revision := s.projects[id].revision + 1)])
  }

  function ProjectStep(s: Store, c: Command): (Store, Reply)
    requires c.UpdateProjectScope? || c.AddReadRoot? || c.RemoveReadRoot? || c.ArchiveProject? || c.RestoreProject? || c.DeleteProject?
  {
    if c.expected == 0 then (s, Rejected(ProjectRevisionInvalid))
    else match c
      case UpdateProjectScope(id, name, root, expected) =>
        if !AtRevision(s, id, expected, Active) then (s, Rejected(ProjectScopeRevisionConflict))
        else (s.(projects := s.projects[id := Project(Trim(name), root, expected + 1, Active)]), Accepted)
      case AddReadRoot(id, rootId, name, path, expected) =>
        if |RootsOf(s, id)| >= MAX_READ_ROOTS then (s, Rejected(ProjectReadRootLimitReached))
        else if !AtRevision(s, id, expected, Active) then (s, Rejected(ProjectScopeRevisionConflict))
        else if rootId in s.readRoots || exists r | r in s.readRoots :: s.readRoots[r].project == id && s.readRoots[r].path == path
        then (s, Rejected(ConstraintViolated))
        else (Revised(s, id).(readRoots := s.readRoots[rootId := ReadRoot(id, Trim(name), path)]), Accepted)
      case RemoveReadRoot(id, rootId, expected) =>
        if !(AtRevision(s, id, expected, Active) && rootId in s.readRoots && s.readRoots[rootId].project == id)
        then (s, Rejected(ProjectReadRootRemoveUnavailable))
        else (Revised(s, id).(readRoots := s.readRoots - {rootId}), Accepted)
      case ArchiveProject(id, expected) =>
        if exists c | c in s.conversations :: s.conversations[c].project == Some(id) && s.conversations[c].status == Active
        then (s, Rejected(ProjectArchiveActiveConversationsPresent))
        else if !AtRevision(s, id, expected, Active) then (s, Rejected(ProjectArchiveRevisionConflict))
        else
          var w := s.workspace;
          (s.(projects := s.projects[id := s.projects[id].(revision := expected + 1, status := Archived)],
              workspace := if w.newConversationProject == Some(id) then w.(newConversationProject := None) else w), Accepted)
      case RestoreProject(id, expected) =>
        if !AtRevision(s, id, expected, Archived) then (s, Rejected(ProjectRestoreRevisionConflict))
        else (s.(projects := s.projects[id := s.projects[id].(revision := expected + 1, status := Active)]), Accepted)
      case DeleteProject(id, expected) =>
        if !AtRevision(s, id, expected, Archived)
           || (exists c | c in s.conversations :: s.conversations[c].project == Some(id))
           || s.workspace.newConversationProject == Some(id)
        then (s, Rejected(ProjectDeleteNotEligible))
        else (s.(projects := s.projects - {id},
                 readRoots := map r | r in s.readRoots && s.readRoots[r].project != id :: s.readRoots[r]), Accepted)
  }

  function ConversationStep(s: Store, c: Command): (Store, Reply)
    requires c.CreateConversation? || c.AssignProject? || c.RenameConversation? || c.SetSelectedSkill?
             || c.SetMemoryMode? || c.ArchiveConversation? || c.RestoreConversation? || c.DeleteConversation?
  {
    match c
    case CreateConversation(id, title, project, skill, memory) =>
      if project.Some? && !ActiveProject(s, project.value) then (s, Rejected(ConversationAdmissionProjectUnavailable))
      else if id in s.conversations then (s, Rejected(ConstraintViolated))
      else
        var row := Conversation(Trim(title), project, skill, s.workspace.selectedProfile, memory, Active);
        (s.(conversations := s.conversations[id := row], workspace := s.workspace.(selectedConversation := Some(id))), Accepted)
    case AssignProject(id, project) =>
      EditConversation(s, id,
        ActiveConversation(s, id) && (project.None? || ActiveProject(s, project.value)) && !HasRunningTurn(s, id),
        (v: Conversation) => v.(project := project), ConversationProjectAssignmentUnavailable)
    case RenameConversation(id, title) =>
      EditConversation(s, id, ActiveConversation(s, id), (v: Conversation) => v.(title := Trim(title)), ConversationNotFound)
    case SetSelectedSkill(id, skill) =>
      EditConversation(s, id, ActiveConversation(s, id), (v: Conversation) => v.(skill := skill), ConversationNotFound)
    case SetMemoryMode(id, memory) =>
      EditConversation(s, id, ActiveConversation(s, id), (v: Conversation) => v.(memory := memory), ConversationNotFound)
    case ArchiveConversation(id) =>
      if !(ActiveConversation(s, id) && !HasRunningTurn(s, id)) then (s, Rejected(ConversationArchiveNotEligible))
      else
        var w := s.workspace;
        (s.(conversations := s.conversations[id := s.conversations[id].(status := Archived)],
            workspace := if w.selectedConversation == Some(id) then w.(selectedConversation := None) else w), Accepted)
    case RestoreConversation(id) =>
      EditConversation(s, id, id in s.conversations && s.conversations[id].status == Archived,
        (v: Conversation) => v.(status := Active), ConversationRestoreNotEligible)
    case DeleteConversation(id) =>
      // The guard leaves the cascades on turns and items nothing to remove.
      if id !in s.conversations || s.conversations[id].status != Archived
         || (exists t | t in s.turns :: s.turns[t].conversation == id)
         || (exists i | i in s.items :: i.conversation == id)
      then (s, Rejected(ConversationDeleteNotEligible))
      else
        var w := s.workspace;
        (s.(conversations := s.conversations - {id},
            workspace := if w.selectedConversation == Some(id) then w.(selectedConversation := None) else w), Accepted)
  }

  function ProfilesOf(s: Store, connection: Id): set<Id> {
    set p | p in s.profiles && s.profiles[p].connection == connection
  }

  function WithoutProfiles(selected: Option<Id>, gone: set<Id>): Option<Id> {
    if selected.Some? && selected.value in gone then None else selected
  }

  function Detached(conversations: map<Id, Conversation>, gone: set<Id>): map<Id, Conversation> {
    map k | k in conversations :: conversations[k].(profile := WithoutProfiles(conversations[k].profile, gone))
  }

  function SelectionStep(s: Store, c: Command): (Store, Reply)
    requires c.CreateProject? || c.CreateProjectAsScope? || c.SetNewConversationProject? || c.SetSelectedConversation?
             || c.UpsertProfile? || c.DeleteConnection? || c.SetSelectedProfile?
  {
    match c
    case CreateProject(id, name, root) =>
      Guard(id !in s.projects, s, s.(projects := s.projects[id := Project(Trim(name), root, 1, Active)]), ConstraintViolated)
    case CreateProjectAsScope(id, name, root) =>
      Guard(id !in s.projects, s,
        s.(projects := s.projects[id := Project(Trim(name), Some(root), 1, Active)],
           workspace := s.workspace.(newConversationProject := Some(id))), ConstraintViolated)
    case SetNewConversationProject(project) =>
      Guard(project.None? || ActiveProject(s, project.value), s,
        s.(workspace := s.workspace.(newConversationProject := project)), WorkspaceProjectSelectionUnavailable)
    case SetSelectedConversation(id) =>
      Guard(ActiveConversation(s, id), s,
        s.(workspace := s.workspace.(selectedConversation := Some(id))), ConversationSelectionUnavailable)
    case UpsertProfile(connectionId, connection, profileId, profile) =>
      if profile.connection != connectionId then (s, Rejected(ProviderProfileConnectionMismatch))
      else if exists p | p in s.profiles :: p != profileId && s.profiles[p].connection == connectionId && s.profiles[p].model == profile.model
      then (s, Rejected(ConstraintViolated))
      else (s.(connections := s.connections[connectionId := connection], profiles := s.profiles[profileId := profile]), Accepted)
    case DeleteConnection(id) =>
      var gone := ProfilesOf(s, id);
      Guard(id in s.connections, s,
        s.(connections := s.connections - {id}, profiles := s.profiles - gone,
           conversations := Detached(s.conversations, gone),
           workspace := s.workspace.(selectedProfile := WithoutProfiles(s.workspace.selectedProfile, gone))),
        ProviderConnectionNotFound)
    case SetSelectedProfile(conversation, profileId) =>
      match conversation
      case Some(id) =>
        EditConversation(s, id, ActiveConversation(s, id) && profileId in s.profiles && !HasRunningTurn(s, id),
          (v: Conversation) => v.(profile := Some(profileId)), ProviderProfileSelectionUnavailable)
      case None =>
        Guard(profileId in s.profiles, s,
          s.(workspace := s.workspace.(selectedProfile := Some(profileId))), ProviderProfileSelectionUnavailable)
  }

  // ------------------------------------------------------------------ runs

  function TurnStep(s: Store, c: Command): (Store, Reply)
    requires c.BeginTurn? || c.AppendSteering? || c.CompleteTurn? || c.FailTurn? || c.CancelTurn? || c.InterruptIncomplete?
  {
    match c
    case BeginTurn(turn, id, message, provider) => Begin(s, turn, id, message, provider)
    case AppendSteering(steering, id, turn, content) => Steer(s, steering, id, turn, content)
    case CompleteTurn(turn, message) => Complete(s, turn, message)
    case FailTurn(turn, error) => Terminalize(s, turn, Failed, Some(error))
    case CancelTurn(turn) => Terminalize(s, turn, Cancelled, None)
    case InterruptIncomplete => Interrupt(s)
  }

  predicate IsTurnCommand(c: Command) {
    c.BeginTurn? || c.AppendSteering? || c.CompleteTurn? || c.FailTurn? || c.CancelTurn? || c.InterruptIncomplete?
  }

  predicate IsProjectCommand(c: Command) {
    c.UpdateProjectScope? || c.AddReadRoot? || c.RemoveReadRoot? || c.ArchiveProject? || c.RestoreProject? || c.DeleteProject?
  }

  predicate IsConversationCommand(c: Command) {
    c.CreateConversation? || c.AssignProject? || c.RenameConversation? || c.SetSelectedSkill?
    || c.SetMemoryMode? || c.ArchiveConversation? || c.RestoreConversation? || c.DeleteConversation?
  }

  function Step(s: Store, c: Command): (Store, Reply) {
    if IsTurnCommand(c) then TurnStep(s, c)
    else if IsProjectCommand(c) then ProjectStep(s, c)
    else if IsConversationCommand(c) then ConversationStep(s, c)
    else SelectionStep(s, c)
  }

  function Run(s: Store, commands: seq<Command>): Store
    decreases |commands|
  {
    if commands == [] then s else Run(Step(s, commands[0]).0, commands[1..])
  }
}
