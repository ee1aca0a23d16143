/** What every reachable conversation store keeps about its turns and items. */
module ConversationTranscript {
  import opened Wrappers
  import opened ConversationModel

  // ------------------------------------------------------------- invariant

  function KindOf(id: ItemId): ItemKind {
    match id
    case UserItem(_) => UserMessage
    case SteeringItem(_, _) => UserSteering
    case AssistantItem(_) => AssistantMessage
  }

  function Count(items: seq<Item>, id: Id): nat {
    if items == [] then 0
    else Count(items[..|items| - 1], id) + if items[|items| - 1].conversation == id then 1 else 0
  }

  ghost predicate Has(items: seq<Item>, id: ItemId) {
    exists i :: 0 <= i < |items| && items[i].id == id
  }

  ghost predicate Running?(turns: map<Id, Turn>, t: Id) {
    t in turns && turns[t].status == Running
  }

  /** Turns belong to conversations; running ones to active conversations, one each. */
  ghost predicate TurnsOk(conversations: map<Id, Conversation>, turns: map<Id, Turn>) {
    && (forall t | t in turns :: turns[t].conversation in conversations)
    && (forall t | Running?(turns, t) :: conversations[turns[t].conversation].status == Active)
    && (forall t, u | Running?(turns, t) && Running?(turns, u) && turns[t].conversation == turns[u].conversation :: t == u)
  }

  /** Each row belongs to its turn, and its id says what it is. */
  ghost predicate RowsOk(turns: map<Id, Turn>, items: seq<Item>) {
    forall i | 0 <= i < |items| :: RowOk(turns, items[i])
  }

  ghost predicate RowOk(turns: map<Id, Turn>, item: Item) {
    && item.turn in turns && item.conversation == turns[item.turn].conversation
    && item.turn == item.id.turn && item.kind == KindOf(item.id) && item.digest == Digest(item.content)
    && (item.kind == UserMessage ==> item.digest == turns[item.turn].requestDigest)
    && (item.kind == AssistantMessage ==> turns[item.turn].status == Completed)
  }

  ghost predicate IdsUnique(items: seq<Item>) {
    forall i, j | 0 <= i < j < |items| :: items[i].id != items[j].id
  }

  /** Each row's sequence number is its position among the rows of its conversation. */
  ghost predicate Sequenced(items: seq<Item>) {
    forall i | 0 <= i < |items| :: items[i].sequence == Count(items[..i], items[i].conversation) + 1
  }

  /** Nothing of a turn comes before its user message or after its assistant message. */
  ghost predicate Framed(items: seq<Item>) {
    forall i, j | 0 <= i < j < |items| && items[i].turn == items[j].turn ::
      items[j].kind != UserMessage && items[i].kind != AssistantMessage
  }

  /** Within a conversation, a running turn is followed by no other turn. */
  ghost predicate RunningLast(turns: map<Id, Turn>, items: seq<Item>) {
    forall i, j | 0 <= i < j < |items| && items[i].conversation == items[j].conversation && Running?(turns, items[i].turn) ::
      items[j].turn == items[i].turn
  }

  /** Within a conversation, a turn's rows have no other turn's rows between them. */
  ghost predicate Contiguous(items: seq<Item>) {
    forall i, j, k | 0 <= i < j < k < |items| && items[i].turn == items[k].turn && items[j].conversation == items[i].conversation ::
      items[j].turn == items[i].turn
  }

  /** Every turn has its user message, and its assistant message once completed. */
  ghost predicate Answered(turns: map<Id, Turn>, items: seq<Item>) {
    forall t | t in turns ::
      Has(items, UserItem(t)) && (turns[t].status == Completed ==> Has(items, AssistantItem(t)))
  }

  ghost predicate ItemsOk(turns: map<Id, Turn>, items: seq<Item>) {
    && RowsOk(turns, items)
    && IdsUnique(items)
    && Sequenced(items)
    && Framed(items)
    && RunningLast(turns, items)
    && Contiguous(items)
    && Answered(turns, items)
  }

  ghost predicate Transcript(s: Store) {
    TurnsOk(s.conversations, s.turns) && ItemsOk(s.turns, s.items)
  }

  // ------------------------------------------------------------ appending

  lemma {:induction false} CountBounds(items: seq<Item>, i: nat, id: Id)
    requires i < |items| && items[i].conversation == id
    ensures Count(items[..i], id) < Count(items, id)
  {
    var n := |items| - 1;
    if i < n {
      CountBounds(items[..n], i, id);
      assert items[..n][..i] == items[..i];
    }
  }

  lemma {:induction false} SequencedPrefix(items: seq<Item>, n: nat)
    requires Sequenced(items) && n <= |items|
    ensures Sequenced(items[..n])
  {
    forall i | 0 <= i < n
      ensures items[i].sequence == Count(items[..n][..i], items[i].conversation) + 1
    {
      assert items[..n][..i] == items[..i];
    }
  }

  /** MAX(sequence) is the number of rows of the conversation. */
  lemma {:induction false} MaxIsCount(items: seq<Item>, id: Id)
    requires Sequenced(items)
    ensures MaxSequence(items, id) == Count(items, id)
  {
    if items != [] {
      var n := |items| - 1;
      SequencedPrefix(items, n);
      MaxIsCount(items[..n], id);
    }
  }

  lemma {:induction false} SequencesBounded(items: seq<Item>, i: nat)
    requires Sequenced(items) && i < |items|
    ensures 1 <= items[i].sequence <= Count(items, items[i].conversation)
  {
    CountBounds(items, i, items[i].conversation);
  }

  /** The unique keys of the item table never reject a step's new row. */
  lemma {:induction false} NextIsInsertable(turns: map<Id, Turn>, items: seq<Item>, item: Item)
    requires RowsOk(turns, items) && Sequenced(items)
    requires item.kind == KindOf(item.id) && item.turn == item.id.turn
    requires item.sequence == MaxSequence(items, item.conversation) + 1
    requires forall i | 0 <= i < |items| :: items[i].id != item.id
    ensures Insertable(items, item)
  {
    MaxIsCount(items, item.conversation);
    forall r | r in items
      ensures r.id != item.id && !(r.conversation == item.conversation && r.sequence == item.sequence)
      ensures !(r.turn == item.turn && r.kind == item.kind && item.kind != UserSteering)
    {
      var i :| 0 <= i < |items| && items[i] == r;
      SequencesBounded(items, i);
      assert RowOk(turns, items[i]);
    }
  }

  /** Turn rows change only in these ways from one state to the next. */
  ghost predicate TurnsGrow(turns: map<Id, Turn>, turns': map<Id, Turn>, changed: Id) {
    forall t | t in turns ::
      && t in turns'
      && turns'[t].conversation == turns[t].conversation && turns'[t].requestDigest == turns[t].requestDigest
      && (turns[t].status == Completed ==> turns'[t].status == Completed)
      && (t != changed ==> turns'[t].status == turns[t].status)
  }

  /** The next row of the one turn of its conversation that is running, or is just beginning. */
  ghost predicate NextRow(turns: map<Id, Turn>, items: seq<Item>, item: Item) {
    && item.kind == KindOf(item.id) && item.turn == item.id.turn
    && item.sequence == MaxSequence(items, item.conversation) + 1
    && (forall i | 0 <= i < |items| :: items[i].id != item.id)
    && (if item.kind == UserMessage then item.turn !in turns else Running?(turns, item.turn))
    && (forall t | Running?(turns, t) && turns[t].conversation == item.conversation :: t == item.turn)
  }

  lemma {:induction false} RowsAppend(turns: map<Id, Turn>, turns': map<Id, Turn>, items: seq<Item>, item: Item)
    requires RowsOk(turns, items) && TurnsGrow(turns, turns', item.turn) && RowOk(turns', item)
    ensures RowsOk(turns', items + [item])
  {
    forall i | 0 <= i < |items + [item]| ensures RowOk(turns', (items + [item])[i]) {
      if i < |items| { assert RowOk(turns, items[i]); }
    }
  }

  lemma {:induction false} IdsAppend(turns: map<Id, Turn>, items: seq<Item>, item: Item)
    requires IdsUnique(items) && NextRow(turns, items, item)
    ensures IdsUnique(items + [item])
  {
  }

  lemma {:induction false} SequencedAppend(items: seq<Item>, item: Item)
    requires Sequenced(items) && item.sequence == MaxSequence(items, item.conversation) + 1
    ensures Sequenced(items + [item])
  {
    var all, n := items + [item], |items|;
    MaxIsCount(items, item.conversation);
    forall i | 0 <= i < |all|
      ensures all[i].sequence == Count(all[..i], all[i].conversation) + 1
    {
      assert all[..i] == items[..i];
      assert i == n ==> items[..i] == items;
    }
  }

  lemma {:induction false} FramedAppend(turns: map<Id, Turn>, items: seq<Item>, item: Item)
    requires RowsOk(turns, items) && Framed(items) && NextRow(turns, items, item)
    ensures Framed(items + [item])
  {
    forall i | 0 <= i < |items| && items[i].turn == item.turn
      ensures item.kind != UserMessage && items[i].kind != AssistantMessage
    {
      assert RowOk(turns, items[i]);
    }
  }

  lemma {:induction false} RunningLastAppend(turns: map<Id, Turn>, turns': map<Id, Turn>, items: seq<Item>, item: Item)
    requires RowsOk(turns, items) && RunningLast(turns, items) && NextRow(turns, items, item)
    requires TurnsGrow(turns, turns', item.turn)
    ensures RunningLast(turns', items + [item])
  {
    var all := items + [item];
    forall i, j | 0 <= i < j < |all| && all[i].conversation == all[j].conversation && Running?(turns', all[i].turn)
      ensures all[j].turn == all[i].turn
    {
      assert all[i] == items[i] && RowOk(turns, items[i]);
      if items[i].turn == item.turn {
        assert Running?(turns, items[i].turn);
      }
    }
  }

  lemma {:induction false} ContiguousAppend(turns: map<Id, Turn>, items: seq<Item>, item: Item)
    requires RowsOk(turns, items) && RunningLast(turns, items) && Contiguous(items) && NextRow(turns, items, item)
    ensures Contiguous(items + [item])
  {
    forall i, j | 0 <= i < j < |items| && items[i].turn == item.turn && items[j].conversation == items[i].conversation
      ensures items[j].turn == items[i].turn
    {
      assert RowOk(turns, items[i]);
    }
    ContiguousExtend(items, item);
  }

  lemma {:induction false} ContiguousExtend(items: seq<Item>, item: Item)
    requires Contiguous(items)
    requires forall i, j | 0 <= i < j < |items| && items[i].turn == item.turn && items[j].conversation == items[i].conversation ::
               items[j].turn == items[i].turn
    ensures Contiguous(items + [item])
  {
    var all := items + [item];
    forall i, j, k | 0 <= i < j < k < |all| && all[i].turn == all[k].turn && all[j].conversation == all[i].conversation
      ensures all[j].turn == all[i].turn
    {
      assert all[i] == items[i] && all[j] == items[j];
      assert k < |items| ==> all[k] == items[k];
    }
  }

  lemma {:induction false} HasAppend(items: seq<Item>, item: Item, id: ItemId)
    requires Has(items, id) || item.id == id
    ensures Has(items + [item], id)
  {
    if Has(items, id) {
      var i :| 0 <= i < |items| && items[i].id == id;
      assert (items + [item])[i].id == id;
    } else {
      assert (items + [item])[|items|].id == id;
    }
  }

  // ------------------------------------------------------------ turn steps

  lemma {:induction false} AnsweredAppend(turns: map<Id, Turn>, turns': map<Id, Turn>, items: seq<Item>, item: Item)
    requires Answered(turns, items)
    requires forall t | t in turns' :: t in turns || item.id == UserItem(t)
    requires forall t | t in turns' && turns'[t].status == Completed ::
               (t in turns && turns[t].status == Completed) || item.id == AssistantItem(t)
    ensures Answered(turns', items + [item])
  {
    forall t | t in turns'
      ensures Has(items + [item], UserItem(t))
      ensures turns'[t].status == Completed ==> Has(items + [item], AssistantItem(t))
    {
      HasAppend(items, item, UserItem(t));
      if turns'[t].status == Completed { HasAppend(items, item, AssistantItem(t)); }
    }
  }

  /** One more row of the right turn keeps everything said about rows. */
  lemma {:induction false} AppendKeeps(turns: map<Id, Turn>, turns': map<Id, Turn>, items: seq<Item>, item: Item)
    requires ItemsOk(turns, items) && NextRow(turns, items, item)
    requires TurnsGrow(turns, turns', item.turn) && RowOk(turns', item)
    requires Answered(turns', items + [item])
    ensures ItemsOk(turns', items + [item]) && Insertable(items, item)
  {
    hide RowsOk, RowOk, IdsUnique, Sequenced, Framed, RunningLast, Contiguous, Answered, MaxSequence, Insertable, TurnsGrow;
    IdsAppend(turns, items, item);
    RowsAppend(turns, turns', items, item);
    SequencedAppend(items, item);
    FramedAppend(turns, items, item);
    RunningLastAppend(turns, turns', items, item);
    ContiguousAppend(turns, items, item);
    NextIsInsertable(turns, items, item);
  }

  function NextItem(s: Store, itemId: ItemId, id: Id, content: string): Item {
    Item(itemId, id, itemId.turn, MaxSequence(s.items, id) + 1, KindOf(itemId), content, Digest(content))
  }

  lemma {:induction false} NoRowsBeforeTurn(s: Store, turnId: Id)
    requires RowsOk(s.turns, s.items) && turnId !in s.turns
    ensures forall i | 0 <= i < |s.items| :: s.items[i].turn != turnId && s.items[i].id.turn != turnId
  {
    forall i | 0 <= i < |s.items| ensures s.items[i].turn != turnId && s.items[i].id.turn != turnId {
      assert RowOk(s.turns, s.items[i]);
    }
  }

  lemma {:induction false} BeginAppends(s: Store, turnId: Id, id: Id, message: string, provider: ProviderBinding)
    requires Transcript(s) && turnId !in s.turns && !HasRunningTurn(s, id) && ActiveConversation(s, id)
    ensures var item := NextItem(s, UserItem(turnId), id, message);
            var turns' := s.turns[turnId := Turn(id, Running, Digest(message), provider, None)];
            && Insertable(s.items, item)
            && TurnsOk(s.conversations, turns') && ItemsOk(turns', s.items + [item])
  {
    hide RowsOk, IdsUnique, Sequenced, Framed, RunningLast, Contiguous, Answered, MaxSequence, Insertable;
    var item := NextItem(s, UserItem(turnId), id, message);
    var turns' := s.turns[turnId := Turn(id, Running, Digest(message), provider, None)];
    NoRowsBeforeTurn(s, turnId);
    assert NextRow(s.turns, s.items, item);
    AnsweredAppend(s.turns, turns', s.items, item);
    AppendKeeps(s.turns, turns', s.items, item);
  }

  lemma {:induction false} BeginKeeps(s: Store, turnId: Id, id: Id, message: string, provider: ProviderBinding)
    requires Transcript(s)
    ensures Transcript(Begin(s, turnId, id, message, provider).0)
  {
    hide ItemsOk, TurnsOk, MaxSequence, Insertable, BegunReply, TurnItems;
    if turnId !in s.turns && !HasRunningTurn(s, id) && ActiveConversation(s, id) {
      BeginAppends(s, turnId, id, message, provider);
    }
  }

  lemma {:induction false} SteerAppends(s: Store, steering: Id, turnId: Id, content: string)
    requires Transcript(s) && Running?(s.turns, turnId)
    requires FindItem(s.items, SteeringItem(turnId, steering)).None?
    ensures var item := NextItem(s, SteeringItem(turnId, steering), s.turns[turnId].conversation, content);
            Insertable(s.items, item) && ItemsOk(s.turns, s.items + [item])
  {
    hide RowsOk, IdsUnique, Sequenced, Framed, RunningLast, Contiguous, Answered, MaxSequence, Insertable;
    var item := NextItem(s, SteeringItem(turnId, steering), s.turns[turnId].conversation, content);
    assert NextRow(s.turns, s.items, item);
    AnsweredAppend(s.turns, s.turns, s.items, item);
    AppendKeeps(s.turns, s.turns, s.items, item);
  }

  lemma {:induction false} SteerKeeps(s: Store, steering: Id, id: Id, turnId: Id, content: string)
    requires Transcript(s)
    ensures Transcript(Steer(s, steering, id, turnId, content).0)
  {
    hide ItemsOk, TurnsOk, MaxSequence, Insertable, BegunReply, TurnItems;
    if FindItem(s.items, SteeringItem(turnId, steering)).None? && Running?(s.turns, turnId) && s.turns[turnId].conversation == id {
      SteerAppends(s, steering, turnId, content);
    }
  }

  /** A running turn has no assistant row yet. */
  lemma {:induction false} NotAnsweredYet(s: Store, turnId: Id)
    requires RowsOk(s.turns, s.items) && Running?(s.turns, turnId)
    ensures forall i | 0 <= i < |s.items| :: s.items[i].id != AssistantItem(turnId)
  {
    forall i | 0 <= i < |s.items| ensures s.items[i].id != AssistantItem(turnId) {
      assert RowOk(s.turns, s.items[i]);
    }
  }

  lemma {:induction false} CompleteAppends(s: Store, turnId: Id, message: string)
    requires Transcript(s) && Running?(s.turns, turnId)
    ensures var item := NextItem(s, AssistantItem(turnId), s.turns[turnId].conversation, message);
            var turns' := s.turns[turnId := s.turns[turnId].(status := Completed)];
            && Insertable(s.items, item)
            && TurnsOk(s.conversations, turns') && ItemsOk(turns', s.items + [item])
  {
    hide RowsOk, IdsUnique, Sequenced, Framed, RunningLast, Contiguous, Answered, MaxSequence, Insertable;
    var item := NextItem(s, AssistantItem(turnId), s.turns[turnId].conversation, message);
    var turns' := s.turns[turnId := s.turns[turnId].(status := Completed)];
    NotAnsweredYet(s, turnId);
    assert NextRow(s.turns, s.items, item);
    AnsweredAppend(s.turns, turns', s.items, item);
    AppendKeeps(s.turns, turns', s.items, item);
  }

  lemma {:induction false} CompleteKeeps(s: Store, turnId: Id, message: string)
    requires Transcript(s)
    ensures Transcript(Complete(s, turnId, message).0)
  {
    hide ItemsOk, TurnsOk, MaxSequence, Insertable, BegunReply, TurnItems;
    if Running?(s.turns, turnId) {
      CompleteAppends(s, turnId, message);
    }
  }

  /** Ending turns without an answer leaves all rows in order. */
  lemma {:induction false} EndingKeeps(conversations: map<Id, Conversation>, turns: map<Id, Turn>, turns': map<Id, Turn>, items: seq<Item>)
    requires TurnsOk(conversations, turns) && ItemsOk(turns, items)
    requires turns'.Keys == turns.Keys
    requires forall t | t in turns :: turns'[t].conversation == turns[t].conversation && turns'[t].requestDigest == turns[t].requestDigest
    requires forall t | t in turns :: turns'[t].status == turns[t].status ||
               (turns[t].status == Running && turns'[t].status != Completed)
    ensures TurnsOk(conversations, turns') && ItemsOk(turns', items)
  {
    hide Has, Count;
    forall i | 0 <= i < |items| ensures RowOk(turns', items[i]) {
      assert RowOk(turns, items[i]);
    }
  }

  lemma {:induction false} TerminalizeKeeps(s: Store, turnId: Id, status: TurnStatus, error: Option<string>)
    requires Transcript(s) && (status == Failed || status == Cancelled)
    ensures Transcript(Terminalize(s, turnId, status, error).0)
  {
    hide TurnsOk, ItemsOk;
    if Running?(s.turns, turnId) {
      EndingKeeps(s.conversations, s.turns, s.turns[turnId := s.turns[turnId].(status := status, error := error)], s.items);
    }
  }

  lemma {:induction false} InterruptKeeps(s: Store)
    requires Transcript(s)
    ensures Transcript(Interrupt(s).0)
  {
    hide TurnsOk, ItemsOk;
    EndingKeeps(s.conversations, s.turns, map t | t in s.turns :: AfterRestart(s.turns[t]), s.items);
  }

  // ---------------------------------------------------------- other steps

  /** What a command outside the turn lifecycle may do: turns and items are left alone, and no
      conversation with turns is removed, nor one with a running turn deactivated. */
  ghost predicate Spares(s: Store, s': Store) {
    && s'.turns == s.turns && s'.items == s.items
    && (forall t | t in s.turns && s.turns[t].conversation in s.conversations :: s.turns[t].conversation in s'.conversations)
    && (forall t | Running?(s.turns, t) && ActiveConversation(s, s.turns[t].conversation) :: ActiveConversation(s', s.turns[t].conversation))
  }

  lemma {:induction false} ProjectStepsSpare(s: Store, c: Command)
    requires IsProjectCommand(c)
    ensures Spares(s, ProjectStep(s, c).0)
  {
    hide Spares, AtRevision, RootsOf, ActiveConversation;
    var s' := ProjectStep(s, c).0;
    assert s'.conversations == s.conversations && s'.turns == s.turns && s'.items == s.items;
    SameConversationsSpare(s, s');
  }

  lemma {:induction false} SameConversationsSpare(s: Store, s': Store)
    requires s'.conversations == s.conversations && s'.turns == s.turns && s'.items == s.items
    ensures Spares(s, s')
  {
  }

  lemma {:induction false} WriteSpares(s: Store, s': Store, id: Id)
    requires s'.turns == s.turns && s'.items == s.items
    requires id in s'.conversations && s'.conversations == s.conversations[id := s'.conversations[id]]
    requires s'.conversations[id].status == Active || !HasRunningTurn(s, id)
    ensures Spares(s, s')
  {
  }

  lemma {:induction false} ConversationStepsSpare(s: Store, c: Command)
    requires IsConversationCommand(c)
    ensures Spares(s, ConversationStep(s, c).0)
  {
    hide ActiveProject, HasRunningTurn, Spares;
    var (s', r) := ConversationStep(s, c);
    if r.Rejected? {
      SameConversationsSpare(s, s');
    } else if c.DeleteConversation? {
      DeleteSpares(s, c.id);
    } else {
      WriteSpares(s, s', c.id);
    }
  }

  lemma {:induction false} DeleteSpares(s: Store, id: Id)
    ensures Spares(s, ConversationStep(s, DeleteConversation(id)).0)
  {
  }

  lemma {:induction false} SelectionStepsSpare(s: Store, c: Command)
    requires !IsTurnCommand(c) && !IsProjectCommand(c) && !IsConversationCommand(c)
    ensures Spares(s, SelectionStep(s, c).0)
  {
    hide ActiveProject, WithoutProfiles, HasRunningTurn, Spares, ProfilesOf;
    var (s', r) := SelectionStep(s, c);
    if c.DeleteConnection? {
      DeleteConnectionSpares(s, c.connectionId);
    } else if r.Rejected? || !c.SetSelectedProfile? || c.conversation.None? {
      SameConversationsSpare(s, s');
    } else {
      WriteSpares(s, s', c.conversation.value);
    }
  }

  lemma {:induction false} DeleteConnectionSpares(s: Store, connection: Id)
    ensures Spares(s, SelectionStep(s, DeleteConnection(connection)).0)
  {
    hide WithoutProfiles, ProfilesOf;
  }

  lemma {:induction false} OtherStepsKeep(s: Store, c: Command)
    requires Transcript(s) && !IsTurnCommand(c)
    ensures Transcript(Step(s, c).0)
  {
    hide ProjectStep, ConversationStep, SelectionStep, ItemsOk;
    if IsProjectCommand(c) {
      ProjectStepsSpare(s, c);
    } else if IsConversationCommand(c) {
      ConversationStepsSpare(s, c);
    } else {
      SelectionStepsSpare(s, c);
    }
  }

  /** Every step keeps the transcript invariant. */
  lemma {:induction false} StepKeepsTranscript(s: Store, c: Command)
    requires Transcript(s)
    ensures Transcript(Step(s, c).0)
  {
    hide Transcript, Begin, Steer, Complete, Terminalize, Interrupt, ProjectStep, ConversationStep, SelectionStep;
    match c {
      case BeginTurn(turn, id, message, provider) => BeginKeeps(s, turn, id, message, provider);
      case AppendSteering(steering, id, turn, content) => SteerKeeps(s, steering, id, turn, content);
      case CompleteTurn(turn, message) => CompleteKeeps(s, turn, message);
      case FailTurn(turn, error) => TerminalizeKeeps(s, turn, Failed, Some(error));
      case CancelTurn(turn) => TerminalizeKeeps(s, turn, Cancelled, None);
      case InterruptIncomplete => InterruptKeeps(s);
      case _ => OtherStepsKeep(s, c);
    }
  }

  /** Every reachable store, over every run. */
  lemma {:induction false} RunKeepsTranscript(s: Store, commands: seq<Command>)
    requires Transcript(s)
    ensures Transcript(Run(s, commands))
    decreases |commands|
  {
    if commands != [] {
      StepKeepsTranscript(s, commands[0]);
      RunKeepsTranscript(Step(s, commands[0]).0, commands[1..]);
    }
  }

  lemma {:induction false} Reachable(commands: seq<Command>)
    ensures Transcript(Run(EMPTY, commands))
  {
    hide Run;
    RunKeepsTranscript(EMPTY, commands);
  }

  // ----------------------------------------------- what the invariant says

  ghost predicate Picks(keep: Item -> bool, items: seq<Item>, pos: seq<nat>, f: seq<Item>) {
    |pos| == |f| && forall k | 0 <= k < |pos| :: pos[k] < |items| && items[pos[k]] == f[k] && keep(f[k])
  }

  ghost predicate Ascending(pos: seq<nat>) {
    forall k, l | 0 <= k < l < |pos| :: pos[k] < pos[l]
  }

  ghost predicate PicksAll(keep: Item -> bool, items: seq<Item>, pos: seq<nat>) {
    forall i | 0 <= i < |items| && keep(items[i]) :: i in pos
  }

  lemma {:induction false} PicksStep(keep: Item -> bool, items: seq<Item>, pos: seq<nat>, f: seq<Item>)
    requires items != [] && Picks(keep, items[..|items| - 1], pos, f)
    ensures Picks(keep, items, pos, f)
    ensures keep(items[|items| - 1]) ==> Picks(keep, items, pos + [|items| - 1], f + [items[|items| - 1]])
  {
  }

  lemma {:induction false} AscendingStep(keep: Item -> bool, items: seq<Item>, pos: seq<nat>, f: seq<Item>)
    requires Ascending(pos) && Picks(keep, items, pos, f)
    ensures Ascending(pos + [|items|])
  {
  }

  lemma {:induction false} PicksAllStep(keep: Item -> bool, items: seq<Item>, pos: seq<nat>)
    requires items != [] && PicksAll(keep, items[..|items| - 1], pos)
    ensures !keep(items[|items| - 1]) ==> PicksAll(keep, items, pos)
    ensures PicksAll(keep, items, pos + [|items| - 1])
  {
    var n := |items| - 1;
    assert (pos + [n])[|pos|] == n;
    forall i | 0 <= i < n && keep(items[i]) ensures i in pos {
      assert items[..n][i] == items[i];
    }
  }

  /** A filtered list is the rows at the kept positions, in order. */
  lemma {:induction false} Positions(keep: Item -> bool, items: seq<Item>) returns (pos: seq<nat>)
    ensures Picks(keep, items, pos, Filter(keep, items)) && Ascending(pos) && PicksAll(keep, items, pos)
  {
    if items == [] {
      pos := [];
    } else {
      hide Picks, Ascending, PicksAll;
      var n := |items| - 1;
      pos := Positions(keep, items[..n]);
      PicksStep(keep, items, pos, Filter(keep, items[..n]));
      AscendingStep(keep, items[..n], pos, Filter(keep, items[..n]));
      PicksAllStep(keep, items, pos);
      if keep(items[n]) {
        pos := pos + [n];
      }
    }
  }

  lemma {:induction false} FilterPrefix(keep: Item -> bool, items: seq<Item>, n: nat)
    requires n < |items|
    ensures Filter(keep, items[..n + 1]) == Filter(keep, items[..n]) + if keep(items[n]) then [items[n]] else []
  {
    assert items[..n + 1][..n] == items[..n];
  }

  lemma {:induction false} FilterCounts(items: seq<Item>, id: Id)
    ensures |Filter(OfConversation(id), items)| == Count(items, id)
  {
    if items != [] {
      FilterCounts(items[..|items| - 1], id);
    }
  }

  /** The rows of a conversation carry the numbers 1, 2, ..., n in order. */
  lemma {:induction false} SequencesAreOneToN(items: seq<Item>, id: Id)
    requires Sequenced(items)
    ensures var f := Filter(OfConversation(id), items);
            forall k | 0 <= k < |f| :: f[k].sequence == k + 1
  {
    if items != [] {
      var n := |items| - 1;
      SequencedPrefix(items, n);
      SequencesAreOneToN(items[..n], id);
      FilterCounts(items[..n], id);
    }
  }

  lemma {:induction false} FilterEmpty(keep: Item -> bool)
    ensures Filter(keep, []) == []
  {
  }

  /** Where the rows of turn `t` stand among those of its conversation, for the first `n` rows. */
  lemma {:induction false} BlockUpTo(turns: map<Id, Turn>, items: seq<Item>, t: Id, n: nat) returns (before: seq<Item>, after: seq<Item>)
    requires RowsOk(turns, items) && Contiguous(items) && t in turns && n <= |items|
    ensures Filter(OfConversation(turns[t].conversation), items[..n]) == before + Filter(OfTurn(t), items[..n]) + after
    ensures after != [] ==> exists i, j :: 0 <= i < j < n && items[i].turn == t && items[j].turn != t
                                           && items[j].conversation == items[i].conversation
  {
    hide RowsOk, RowOk, Contiguous, Filter;
    if n == 0 {
      FilterEmpty(OfTurn(t));
      FilterEmpty(OfConversation(turns[t].conversation));
      assert items[..0] == [];
      before, after := [], [];
    } else {
      var id, last := turns[t].conversation, items[n - 1];
      before, after := BlockUpTo(turns, items, t, n - 1);
      FilterPrefix(OfConversation(id), items, n - 1);
      FilterPrefix(OfTurn(t), items, n - 1);
      RowConversation(turns, items, n - 1);
      var block := Filter(OfTurn(t), items[..n - 1]);
      if last.turn == t {
        if after != [] {
          var i, j :| 0 <= i < j < n - 1 && items[i].turn == t && items[j].turn != t && items[j].conversation == items[i].conversation;
          NothingBetween(items, i, j, n - 1);
        }
        assert before + (block + [last]) + [] == before + block + [] + [last];
      } else if last.conversation == id && block == [] {
        before, after := before + after + [last], [];
        assert before + block + after == before;
      } else if last.conversation == id {
        var pos := Positions(OfTurn(t), items[..n - 1]);
        RowConversation(turns, items, pos[0]);
        assert items[pos[0]].turn == t;
        assert before + block + (after + [last]) == before + block + after + [last];
        after := after + [last];
      }
    }
  }

  lemma {:induction false} NothingBetween(items: seq<Item>, i: nat, j: nat, k: nat)
    requires Contiguous(items) && i < j < k < |items| && items[i].turn == items[k].turn && items[j].conversation == items[i].conversation
    ensures items[j].turn == items[i].turn
  {
  }

  lemma {:induction false} RowConversation(turns: map<Id, Turn>, items: seq<Item>, i: nat)
    requires RowsOk(turns, items) && i < |items|
    ensures items[i].turn in turns && items[i].conversation == turns[items[i].turn].conversation
  {
    assert RowOk(turns, items[i]);
  }

  /** A block runs from the user row to the assistant row, if there is one. */
  ghost predicate Block(turns: map<Id, Turn>, t: Id, b: seq<Item>) {
    && t in turns && b != []
    && (forall k | 0 <= k < |b| :: RowOk(turns, b[k]) && b[k].turn == t)
    && (forall k | 0 <= k < |b| :: b[k].kind == UserMessage <==> k == 0)
    && (forall k | 0 <= k < |b| - 1 :: b[k].kind != AssistantMessage)
    && (turns[t].status == Completed <==> b[|b| - 1].kind == AssistantMessage)
  }

  lemma {:induction false} RowsAreBlock(turns: map<Id, Turn>, items: seq<Item>, t: Id, b: seq<Item>, pos: seq<nat>)
    requires RowsOk(turns, items) && Framed(items) && t in turns && |pos| == |b|
    requires forall k | 0 <= k < |pos| :: pos[k] < |items| && items[pos[k]] == b[k] && b[k].turn == t
    requires forall k, l | 0 <= k < l < |pos| :: pos[k] < pos[l]
    requires exists m :: 0 <= m < |b| && b[m].id == UserItem(t)
    requires turns[t].status == Completed ==> exists m :: 0 <= m < |b| && b[m].id == AssistantItem(t)
    ensures Block(turns, t, b)
  {
    forall k | 0 <= k < |b|
      ensures RowOk(turns, b[k])
      ensures k > 0 ==> b[k].kind != UserMessage
      ensures k < |b| - 1 ==> b[k].kind != AssistantMessage
    {
      assert RowOk(turns, items[pos[k]]);
      assert k > 0 ==> pos[0] < pos[k];
      assert k < |b| - 1 ==> pos[k] < pos[|b| - 1];
    }
  }

  lemma {:induction false} HasPosition(s: Store, t: Id, id: ItemId, pos: seq<nat>) returns (m: nat)
    requires RowsOk(s.turns, s.items) && Has(s.items, id) && id.turn == t
    requires forall i | 0 <= i < |s.items| && s.items[i].turn == t :: i in pos
    ensures m < |pos| && pos[m] < |s.items| && s.items[pos[m]].id == id
  {
    var i :| 0 <= i < |s.items| && s.items[i].id == id;
    assert RowOk(s.turns, s.items[i]);
    m :| 0 <= m < |pos| && pos[m] == i;
  }

  lemma {:induction false} TurnItemsAreBlock(s: Store, t: Id)
    requires Transcript(s) && t in s.turns
    ensures Block(s.turns, t, TurnItems(s, t))
  {
    hide RowsOk, TurnsOk, IdsUnique, Sequenced, RunningLast, Contiguous, Framed, Has, Filter;
    var pos := Positions(OfTurn(t), s.items);
    var m := HasPosition(s, t, UserItem(t), pos);
    if s.turns[t].status == Completed {
      var l := HasPosition(s, t, AssistantItem(t), pos);
    }
    RowsAreBlock(s.turns, s.items, t, TurnItems(s, t), pos);
  }

  /** The transcript law: in every reachable store the rows of a turn are one block of its
      conversation, whose rows are numbered 1 to n; the block runs from its only user message,
      whose digest is the turn's request digest, to its assistant message, which is there
      exactly when the turn is completed. */
  lemma {:induction false} TurnIsOneBlock(commands: seq<Command>, t: Id) returns (before: seq<Item>, after: seq<Item>)
    requires t in Run(EMPTY, commands).turns
    ensures var s := Run(EMPTY, commands);
            var rows := ConversationItems(s, s.turns[t].conversation);
            && rows == before + TurnItems(s, t) + after
            && (forall k | 0 <= k < |rows| :: rows[k].sequence == k + 1)
            && Block(s.turns, t, TurnItems(s, t))
  {
    hide Filter, Run, TurnsOk;
    Reachable(commands);
    var s := Run(EMPTY, commands);
    before, after := BlockUpTo(s.turns, s.items, t, |s.items|);
    assert s.items[..|s.items|] == s.items;
    SequencesAreOneToN(s.items, s.turns[t].conversation);
    TurnItemsAreBlock(s, t);
  }

  /** At most one turn of a conversation is running, and only in an active conversation. */
  lemma {:induction false} OneRunningTurn(commands: seq<Command>, t: Id, u: Id)
    requires var turns := Run(EMPTY, commands).turns; Running?(turns, t) && Running?(turns, u)
    ensures var s := Run(EMPTY, commands);
            && (s.turns[t].conversation == s.turns[u].conversation ==> t == u)
            && ActiveConversation(s, s.turns[t].conversation)
  {
    Reachable(commands);
  }

  // ------------------------------------------------------ dead error paths

  /** The proof that can only come from the turn's own user row. */
  function ProofFor(turns: map<Id, Turn>, t: Id): UserProof
    requires t in turns
  {
    var digest := turns[t].requestDigest;
    UserProof(turns[t].conversation, t, UserItem(t), digest, |digest.content|)
  }

  lemma {:induction false} ProofSucceeds(turns: map<Id, Turn>, t: Id, items: seq<Item>)
    requires t in turns && forall i | i in items :: RowOk(turns, i) && i.turn == t
    ensures (exists i | i in items :: i.kind == UserMessage) ==>
              var r := ProofOf(t, turns[t], items);
              r.Begun? && r.row == turns[t] && r.proof == ProofFor(turns, t)
  {
    if items != [] && items[0].kind != UserMessage {
      ProofSucceeds(turns, t, items[1..]);
      assert items == [items[0]] + items[1..];
    } else if items != [] {
      assert RowOk(turns, items[0]);
    }
  }

  lemma {:induction false} BegunSucceeds(s: Store, t: Id)
    requires Transcript(s) && t in s.turns
    ensures var r := BegunReply(s, t);
            r == Begun(s.turns[t], TurnItems(s, t), ProofFor(s.turns, t))
  {
    hide Transcript, RowOk, Filter;
    var b := TurnItems(s, t);
    TurnItemsAreBlock(s, t);
    assert b[0] in b;
    ProofSucceeds(s.turns, t, b);
  }

  lemma {:induction false} StepIsClean(s: Store, c: Command)
    requires Transcript(s) && IsTurnCommand(c)
    ensures Clean(Step(s, c).1)
  {
    hide Transcript, Begin, Steer, Complete, Terminalize, Interrupt, ProjectStep, ConversationStep, SelectionStep;
    match c {
      case BeginTurn(t, id, message, provider) => BeginIsClean(s, t, id, message, provider);
      case AppendSteering(steering, id, t, content) => SteerIsClean(s, steering, id, t, content);
      case CompleteTurn(t, message) => CompleteIsClean(s, t, message);
      case FailTurn(t, error) => TerminalizeIsClean(s, t, Failed, Some(error));
      case CancelTurn(t) => TerminalizeIsClean(s, t, Cancelled, None);
      case InterruptIncomplete => assert Interrupt(s).1.InterruptedCount? by { InterruptIsClean(s); }
    }
  }

  /** No reachable store answers a turn command with a missing or misowned user item,
      or with a violated unique key. */
  lemma {:induction false} DeadErrors(commands: seq<Command>, c: Command)
    requires IsTurnCommand(c)
    ensures Clean(Step(Run(EMPTY, commands), c).1)
  {
    hide Run, Transcript, Step;
    Reachable(commands);
    StepIsClean(Run(EMPTY, commands), c);
  }

  ghost predicate Clean(r: Reply) {
    r != Rejected(ConstraintViolated) && r != Rejected(ConversationTurnUserItemMissing) && r != Rejected(ConversationTurnUserItemOwnerMismatch)
  }

  lemma {:induction false} SteerIsClean(s: Store, steering: Id, id: Id, t: Id, content: string)
    requires Transcript(s)
    ensures Clean(Steer(s, steering, id, t, content).1)
  {
    hide Transcript, ItemsOk, Insertable, MaxSequence, FindItem;
    if FindItem(s.items, SteeringItem(t, steering)).None? && Running?(s.turns, t) && s.turns[t].conversation == id {
      SteerAppends(s, steering, t, content);
    }
  }

  lemma {:induction false} CompleteIsClean(s: Store, t: Id, message: string)
    requires Transcript(s)
    ensures Clean(Complete(s, t, message).1)
  {
    hide Transcript, ItemsOk, TurnsOk, Insertable, MaxSequence, TurnItems;
    if Running?(s.turns, t) {
      CompleteAppends(s, t, message);
    }
  }

  lemma {:induction false} TerminalizeIsClean(s: Store, t: Id, status: TurnStatus, error: Option<string>)
    ensures Clean(Terminalize(s, t, status, error).1)
  {
  }

  lemma {:induction false} InterruptIsClean(s: Store)
    ensures Interrupt(s).1.InterruptedCount?
  {
  }

  lemma {:induction false} BeginIsClean(s: Store, t: Id, id: Id, message: string, provider: ProviderBinding)
    requires Transcript(s)
    ensures Clean(Begin(s, t, id, message, provider).1)
  {
    hide Transcript, TurnItems, Insertable, MaxSequence, BegunReply;
    if t in s.turns {
      BegunSucceeds(s, t);
    } else if !HasRunningTurn(s, id) && ActiveConversation(s, id) {
      BeginAppends(s, t, id, message, provider);
      BeginKeeps(s, t, id, message, provider);
      BegunSucceeds(Begin(s, t, id, message, provider).0, t);
    }
  }
}
