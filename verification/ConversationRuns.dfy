/** What later commands can and cannot change: retries stay harmless for ever, and a
    model sees only completed turns and the current one. */
module ConversationRuns {
  import opened Wrappers
  import opened ConversationModel
  import opened ConversationTranscript

  // ----------------------------------------------------------- persistence

  ghost predicate TurnEvolves(a: Turn, b: Turn) {
    && b.conversation == a.conversation && b.requestDigest == a.requestDigest && b.provider == a.provider
    && (a.status != Running ==> b == a)
  }

  /** Rows are only ever added, turns keep their identity, and an ended turn is frozen. */
  ghost predicate Extends(s: Store, s': Store) {
    && s.items <= s'.items
    && (forall t | t in s.turns :: t in s'.turns && TurnEvolves(s.turns[t], s'.turns[t]))
    && (forall t | t in s.turns && s.turns[t].status != Running :: TurnItems(s', t) == TurnItems(s, t))
  }

  lemma {:induction false} ExtendsTransitive(a: Store, b: Store, c: Store)
    requires Extends(a, b) && Extends(b, c)
    ensures Extends(a, c)
  {
    hide TurnItems;
  }

  lemma {:induction false} AppendExtends(s: Store, s': Store, item: Item)
    requires s'.items == s.items + [item]
    requires forall t | t in s.turns :: t in s'.turns && TurnEvolves(s.turns[t], s'.turns[t])
    requires item.turn !in s.turns || s.turns[item.turn].status == Running
    ensures Extends(s, s')
  {
    hide TurnEvolves;
    forall t | t in s.turns && s.turns[t].status != Running
      ensures TurnItems(s', t) == TurnItems(s, t)
    {
      assert s'.items[..|s.items|] == s.items;
    }
  }

  lemma {:induction false} SameItemsExtend(s: Store, s': Store)
    requires s'.items == s.items
    requires forall t | t in s.turns :: t in s'.turns && TurnEvolves(s.turns[t], s'.turns[t])
    ensures Extends(s, s')
  {
    hide TurnEvolves, Filter;
  }

  lemma {:induction false} BeginExtends(s: Store, turn: Id, id: Id, message: string, provider: ProviderBinding)
    ensures Extends(s, Begin(s, turn, id, message, provider).0)
  {
    hide Extends, Insertable, MaxSequence, BegunReply, HasRunningTurn, ActiveConversation;
    var s' := Begin(s, turn, id, message, provider).0;
    if s' == s {
      SameItemsExtend(s, s');
    } else {
      AppendExtends(s, s', s'.items[|s.items|]);
    }
  }

  lemma {:induction false} SteerExtends(s: Store, steering: Id, id: Id, turn: Id, content: string)
    ensures Extends(s, Steer(s, steering, id, turn, content).0)
  {
    hide Extends, Insertable, MaxSequence, FindItem;
    var s' := Steer(s, steering, id, turn, content).0;
    if s' == s {
      SameItemsExtend(s, s');
    } else {
      AppendExtends(s, s', s'.items[|s.items|]);
    }
  }

  lemma {:induction false} CompleteExtends(s: Store, turn: Id, message: string)
    ensures Extends(s, Complete(s, turn, message).0)
  {
    hide Extends, Insertable, MaxSequence, TurnItems, IsAnswer;
    var s' := Complete(s, turn, message).0;
    if s' == s {
      SameItemsExtend(s, s');
    } else {
      AppendExtends(s, s', s'.items[|s.items|]);
    }
  }

  lemma {:induction false} TerminalizeExtends(s: Store, turn: Id, status: TurnStatus, error: Option<string>)
    ensures Extends(s, Terminalize(s, turn, status, error).0)
  {
    hide Extends;
    var s' := Terminalize(s, turn, status, error).0;
    assert s' == s || s' == s.(turns := s.turns[turn := s'.turns[turn]]);
    SameItemsExtend(s, s');
  }

  lemma {:induction false} InterruptExtends(s: Store)
    ensures Extends(s, Interrupt(s).0)
  {
    hide Extends;
    SameItemsExtend(s, Interrupt(s).0);
  }

  lemma {:induction false} TurnPersists(s: Store, s': Store, t: Id)
    requires Extends(s, s') && t in s.turns
    ensures t in s'.turns && TurnEvolves(s.turns[t], s'.turns[t])
    ensures s.turns[t].status != Running ==> TurnItems(s', t) == TurnItems(s, t)
  {
    hide TurnItems, TurnEvolves;
  }

  lemma {:induction false} TurnStepExtends(s: Store, c: Command)
    requires IsTurnCommand(c)
    ensures Extends(s, TurnStep(s, c).0)
  {
    hide Extends, Begin, Steer, Complete, Terminalize, Interrupt;
    match c {
      case BeginTurn(turn, id, message, provider) => BeginExtends(s, turn, id, message, provider);
      case AppendSteering(steering, id, turn, content) => SteerExtends(s, steering, id, turn, content);
      case CompleteTurn(turn, message) => CompleteExtends(s, turn, message);
      case FailTurn(turn, error) => TerminalizeExtends(s, turn, Failed, Some(error));
      case CancelTurn(turn) => TerminalizeExtends(s, turn, Cancelled, None);
      case InterruptIncomplete => InterruptExtends(s);
    }
  }

  lemma {:induction false} StepExtends(s: Store, c: Command)
    ensures Extends(s, Step(s, c).0)
  {
    hide Extends, TurnStep, ProjectStep, ConversationStep, SelectionStep;
    if IsTurnCommand(c) {
      TurnStepExtends(s, c);
    } else {
      OtherStepsLeaveTurns(s, c);
      SameItemsExtend(s, Step(s, c).0);
    }
  }

  lemma {:induction false} OtherStepsLeaveTurns(s: Store, c: Command)
    requires !IsTurnCommand(c)
    ensures Step(s, c).0.turns == s.turns && Step(s, c).0.items == s.items
  {
    hide ProjectStep, ConversationStep, SelectionStep, Running?, ActiveConversation;
    if IsProjectCommand(c) {
      ProjectStepsSpare(s, c);
    } else if IsConversationCommand(c) {
      ConversationStepsSpare(s, c);
    } else {
      SelectionStepsSpare(s, c);
    }
  }

  lemma {:induction false} RunExtends(s: Store, commands: seq<Command>)
    ensures Extends(s, Run(s, commands))
    decreases |commands|
  {
    hide Extends, Step;
    if commands == [] {
      assert Extends(s, s) by { SameItemsExtend(s, s); }
    } else {
      var s1 := Step(s, commands[0]).0;
      StepExtends(s, commands[0]);
      RunExtends(s1, commands[1..]);
      ExtendsTransitive(s, s1, Run(s1, commands[1..]));
    }
  }

  // --------------------------------------------------------------- retries

  /** Two answers to the same command, the second of them a replay. */
  ghost predicate SameAnswer(first: Reply, again: Reply) {
    match first
    case Begun(_, _, proof) => again.Begun? && again.proof == proof
    case Steered(item, _) => again == Steered(item, true)
    case _ => again == first
  }

  predicate IsRetryable(c: Command) {
    c.BeginTurn? || c.AppendSteering? || c.CompleteTurn? || c.FailTurn? || c.CancelTurn?
  }

  lemma {:induction false} BeginRetry(s: Store, s2: Store, c: Command)
    requires Transcript(s) && Transcript(s2) && c.BeginTurn? && Step(s, c).1.Begun?
    requires Extends(Step(s, c).0, s2)
    ensures Step(s2, c).0 == s2 && SameAnswer(Step(s, c).1, Step(s2, c).1)
  {
    hide Transcript, BegunReply, TurnItems, Insertable, MaxSequence;
    var s1 := Step(s, c).0;
    BeginKeeps(s, c.turn, c.conversationId, c.message, c.provider);
    assert c.turn in s1.turns && s1.turns[c.turn].conversation == c.conversationId;
    BegunSucceeds(s1, c.turn);
    BegunSucceeds(s2, c.turn);
  }

  lemma {:induction false} FoundAgain(items: seq<Item>, item: Item)
    requires IdsUnique(items) && item in items
    ensures FindItem(items, item.id) == Some(item)
  {
    var r := FindItem(items, item.id);
    assert r.Some?;
    var i :| 0 <= i < |items| && items[i] == item;
    var j :| 0 <= j < |items| && items[j] == r.value;
  }

  lemma {:induction false} SteerRetry(s: Store, s2: Store, c: Command)
    requires Transcript(s) && Transcript(s2) && c.AppendSteering? && Step(s, c).1.Steered?
    requires Extends(Step(s, c).0, s2)
    ensures Step(s2, c).0 == s2 && SameAnswer(Step(s, c).1, Step(s2, c).1)
  {
    hide TurnsOk, RowsOk, IdsUnique, Sequenced, Framed, RunningLast, Contiguous, Answered, FindItem, Insertable, MaxSequence, TurnItems;
    var s1, item := Step(s, c).0, Step(s, c).1.item;
    assert item in s1.items && item.id == SteeringItem(c.turn, c.steering);
    assert item in s2.items by { InPrefix(s1.items, s2.items, item); }
    FoundAgain(s2.items, item);
  }

  lemma {:induction false} InPrefix(items: seq<Item>, items': seq<Item>, item: Item)
    requires items <= items' && item in items
    ensures item in items'
  {
    var i :| 0 <= i < |items| && items[i] == item;
    assert items'[i] == item;
  }

  lemma {:induction false} CompleteRetry(s: Store, s2: Store, c: Command)
    requires Transcript(s) && c.CompleteTurn? && Step(s, c).1.TurnSnapshot?
    requires Extends(Step(s, c).0, s2)
    ensures Step(s2, c).0 == s2 && SameAnswer(Step(s, c).1, Step(s2, c).1)
  {
    hide Transcript, TurnItems, Insertable, MaxSequence, Extends, ProjectStep, ConversationStep, SelectionStep;
    var s1 := Step(s, c).0;
    assert s1.turns[c.turn].status == Completed;
    TurnPersists(s1, s2, c.turn);
    if s.turns[c.turn].status == Running {
      var item := NextItem(s, AssistantItem(c.turn), s.turns[c.turn].conversation, c.message);
      assert s1.items == s.items + [item] && s1.items[..|s.items|] == s.items;
      LastIsKept(s1, c.turn);
      assert item in TurnItems(s1, c.turn) && IsAnswer(item, c.message);
    }
    assert exists i | i in TurnItems(s1, c.turn) :: IsAnswer(i, c.message);
  }

  lemma {:induction false} LastIsKept(s: Store, t: Id)
    requires s.items != [] && s.items[|s.items| - 1].turn == t
    ensures s.items[|s.items| - 1] in TurnItems(s, t)
  {
  }

  lemma {:induction false} EndRetry(s: Store, s2: Store, t: Id, status: TurnStatus, error: Option<string>)
    requires Terminalize(s, t, status, error).1.TurnRow? && status != Running
    requires Extends(Terminalize(s, t, status, error).0, s2)
    ensures Terminalize(s2, t, status, error) == (s2, Terminalize(s, t, status, error).1)
  {
    hide TurnItems, Extends;
    TurnPersists(Terminalize(s, t, status, error).0, s2, t);
  }

  /** A command of the turn lifecycle that was accepted once, in any reachable store, is
      accepted again after any further commands: it gets the same answer and changes nothing. */
  lemma {:induction false} RetryIsHarmless(before: seq<Command>, c: Command, after: seq<Command>)
    requires IsRetryable(c) && !Step(Run(EMPTY, before), c).1.Rejected?
    ensures var (s1, answer) := Step(Run(EMPTY, before), c);
            var s2 := Run(s1, after);
            Step(s2, c).0 == s2 && SameAnswer(answer, Step(s2, c).1)
  {
    hide Run, Transcript, Extends, Begin, Steer, Complete, Terminalize;
    var s := Run(EMPTY, before);
    Reachable(before);
    var s1 := Step(s, c).0;
    StepKeepsTranscript(s, c);
    RunKeepsTranscript(s1, after);
    RunExtends(s1, after);
    AnswerShape(s, c);
    match c {
      case BeginTurn(_, _, _, _) => BeginRetry(s, Run(s1, after), c);
      case AppendSteering(_, _, _, _) => SteerRetry(s, Run(s1, after), c);
      case CompleteTurn(_, _) => CompleteRetry(s, Run(s1, after), c);
      case FailTurn(t, error) => EndRetry(s, Run(s1, after), t, Failed, Some(error));
      case CancelTurn(t) => EndRetry(s, Run(s1, after), t, Cancelled, None);
    }
  }

  lemma {:induction false} AnswerShape(s: Store, c: Command)
    requires IsRetryable(c)
    ensures var r := Step(s, c).1;
            r.Rejected? || match c
              case BeginTurn(_, _, _, _) => r.Begun?
              case AppendSteering(_, _, _, _) => r.Steered?
              case CompleteTurn(_, _) => r.TurnSnapshot?
              case _ => r.TurnRow?
  {
    hide TurnItems, Insertable, MaxSequence, FindItem;
  }

  // ----------------------------------------------------------------- drift

  /** The same id with another payload: another conversation, message or provider of a
      turn, another text of a steering, another answer or end of a turn. */
  ghost predicate Drifts(c: Command, d: Command) {
    match c
    case BeginTurn(turn, _, _, _) => d.BeginTurn? && d.turn == turn && d != c
    case AppendSteering(steering, _, turn, _) => d.AppendSteering? && d.steering == steering && d.turn == turn && d != c
    case CompleteTurn(turn, _) => (d.CompleteTurn? || d.FailTurn? || d.CancelTurn?) && d.turn == turn && d != c
    case FailTurn(turn, _) => (d.FailTurn? || d.CancelTurn? || d.CompleteTurn?) && d.turn == turn && d != c
    case CancelTurn(turn) => (d.FailTurn? || d.CompleteTurn?) && d.turn == turn
    case _ => false
  }

  lemma {:induction false} CompleteDrift(s: Store, s2: Store, c: Command, d: Command)
    requires Transcript(s) && Transcript(s2) && c.CompleteTurn? && d.CompleteTurn? && d.turn == c.turn && d != c
    requires Step(s, c).1.TurnSnapshot? && Extends(Step(s, c).0, s2)
    ensures Step(s2, d) == (s2, Rejected(ConversationTurnTerminalPayloadDrift))
  {
    hide Transcript, TurnItems, Insertable, MaxSequence, Extends, RowOk;
    CompleteRetry(s, s2, c);
    TurnPersists(Step(s, c).0, s2, c.turn);
    var b := TurnItems(s2, c.turn);
    assert c.turn in s2.turns && s2.turns[c.turn].status == Completed;
    TurnItemsAreBlock(s2, c.turn);
    assert forall k | 0 <= k < |b| && b[k].kind == AssistantMessage :: k == |b| - 1;
    var i :| i in b && IsAnswer(i, c.message);
    assert i == b[|b| - 1];
  }

  lemma {:induction false} CompleteThenEnd(s: Store, s2: Store, c: Command, d: Command)
    requires c.CompleteTurn? && (d.FailTurn? || d.CancelTurn?) && d.turn == c.turn
    requires Step(s, c).1.TurnSnapshot? && Extends(Step(s, c).0, s2)
    ensures Step(s2, d) == (s2, Rejected(ConversationTurnNotRunning))
  {
    hide TurnItems, Insertable, MaxSequence, ProjectStep, ConversationStep, SelectionStep, Extends;
    TurnPersists(Step(s, c).0, s2, c.turn);
    assert s2.turns[c.turn].status == Completed;
  }

  lemma {:induction false} BeginDrift(s: Store, s2: Store, c: Command, d: Command)
    requires c.BeginTurn? && d.BeginTurn? && d.turn == c.turn && d != c
    requires Step(s, c).1.Begun? && Extends(Step(s, c).0, s2)
    ensures Step(s2, d) == (s2, Rejected(ConversationTurnIdempotencyPayloadDrift))
  {
    hide BegunReply, TurnItems, Insertable, MaxSequence;
    var row := Step(s, c).0.turns[c.turn];
    assert row.conversation == c.conversationId && row.requestDigest == Digest(c.message) && row.provider == c.provider;
  }

  lemma {:induction false} SteerDrift(s: Store, s2: Store, c: Command, d: Command)
    requires Transcript(s) && Transcript(s2) && c.AppendSteering? && d.AppendSteering?
    requires d.turn == c.turn && d.steering == c.steering && d != c
    requires Step(s, c).1.Steered? && Extends(Step(s, c).0, s2)
    ensures Step(s2, d) == (s2, Rejected(ConversationSteeringIdempotencyPayloadDrift))
  {
    hide Transcript, FindItem, Insertable, MaxSequence, Extends;
    var item := Step(s, c).1.item;
    assert item.conversation == c.conversationId && item.content == c.content;
    SteerRetry(s, s2, c);
  }

  lemma {:induction false} EndDrift(s: Store, s2: Store, t: Id, status: TurnStatus, error: Option<string>, d: Command)
    requires Terminalize(s, t, status, error).1.TurnRow? && (status == Failed || status == Cancelled)
    requires Extends(Terminalize(s, t, status, error).0, s2)
    requires match d
             case FailTurn(u, e) => u == t && (status, error) != (Failed, Some(e))
             case CancelTurn(u) => u == t && (status, error) != (Cancelled, None)
             case CompleteTurn(u, _) => u == t
             case _ => false
    ensures Step(s2, d) == (s2, Rejected(ConversationTurnNotRunning))
  {
    hide TurnItems, Insertable, MaxSequence, ProjectStep, ConversationStep, SelectionStep, Extends;
    TurnPersists(Terminalize(s, t, status, error).0, s2, t);
    var row := Terminalize(s, t, status, error).0.turns[t];
    assert row.status == status && row.error == error;
    assert s2.turns[t] == row;
  }

  /** The same id with a different payload is rejected for ever after, without change. */
  lemma {:induction false} DriftIsRejected(before: seq<Command>, c: Command, after: seq<Command>, d: Command)
    requires IsRetryable(c) && !Step(Run(EMPTY, before), c).1.Rejected?
    requires Drifts(c, d)
    ensures var s2 := Run(Step(Run(EMPTY, before), c).0, after);
            Step(s2, d).0 == s2 && Step(s2, d).1.Rejected?
  {
    hide Run, Transcript, Extends, Begin, Steer, Complete, Terminalize;
    var s := Run(EMPTY, before);
    Reachable(before);
    var s1 := Step(s, c).0;
    StepKeepsTranscript(s, c);
    RunKeepsTranscript(s1, after);
    RunExtends(s1, after);
    AnswerShape(s, c);
    match c {
      case BeginTurn(_, _, _, _) => BeginDrift(s, Run(s1, after), c, d);
      case AppendSteering(_, _, _, _) => SteerDrift(s, Run(s1, after), c, d);
      case CompleteTurn(_, _) =>
        if d.CompleteTurn? { CompleteDrift(s, Run(s1, after), c, d); } else { CompleteThenEnd(s, Run(s1, after), c, d); }
      case FailTurn(t, error) => EndDrift(s, Run(s1, after), t, Failed, Some(error), d);
      case CancelTurn(t) => EndDrift(s, Run(s1, after), t, Cancelled, None, d);
    }
  }

  // --------------------------------------------------------- model context

  function Eligible(turns: map<Id, Turn>, id: Id, current: Id): Item -> bool {
    (i: Item) => i.conversation == id && i.turn in turns && (turns[i.turn].status == Completed || i.turn == current)
  }

  function OfCompleted(turns: map<Id, Turn>, id: Id): Item -> bool {
    (i: Item) => i.conversation == id && i.turn in turns && turns[i.turn].status == Completed
  }

  function Clamp(limit: nat): nat {
    if limit < 1 then 1 else if limit > 1000 then 1000 else limit
  }

  function LastRows(items: seq<Item>, n: nat): seq<Item> {
    if |items| <= n then items else items[|items| - n..]
  }

  /** The rows a model may see for the current turn, oldest first. */
  function ModelContext(s: Store, id: Id, current: Id, limit: nat): Option<seq<Item>> {
    if !(current in s.turns && s.turns[current].conversation == id && s.turns[current].status == Running) then None
    else Some(LastRows(Filter(Eligible(s.turns, id, current), s.items), Clamp(limit)))
  }

  lemma {:induction false} SequencesIncrease(items: seq<Item>, i: nat, j: nat)
    requires Sequenced(items) && i < j < |items| && items[i].conversation == items[j].conversation
    ensures items[i].sequence < items[j].sequence
  {
    assert items[..j][..i] == items[..i];
    CountBounds(items[..j], i, items[i].conversation);
  }

  /** The rows are what ordering by sequence and keeping the last ones selects: any eligible
      row left out has a smaller sequence number than every row kept. */
  lemma {:induction false} ContextIsQuery(s: Store, id: Id, current: Id, limit: nat)
    requires Sequenced(s.items) && ModelContext(s, id, current, limit).Some?
    ensures var rows := ModelContext(s, id, current, limit).value;
            var all := Filter(Eligible(s.turns, id, current), s.items);
            && |rows| == (if |all| <= Clamp(limit) then |all| else Clamp(limit))
            && rows == all[|all| - |rows|..]
            && (forall k, l | 0 <= k < l < |rows| :: rows[k].sequence < rows[l].sequence)
            && (forall i, k | 0 <= i < |s.items| && Eligible(s.turns, id, current)(s.items[i]) && s.items[i] !in rows && 0 <= k < |rows| ::
                  s.items[i].sequence < rows[k].sequence)
  {
    hide Sequenced, Filter, Clamp;
    var keep := Eligible(s.turns, id, current);
    var all := Filter(keep, s.items);
    FilterIncreases(s.items, keep, id);
    var rows := LastRows(all, Clamp(limit));
    forall i, k | 0 <= i < |s.items| && keep(s.items[i]) && s.items[i] !in rows && 0 <= k < |rows|
      ensures s.items[i].sequence < rows[k].sequence
    {
      var m := KeptAt(keep, s.items, i);
      LeftOut(all, |all| - |rows|, m);
    }
  }

  lemma {:induction false} KeptAt(keep: Item -> bool, items: seq<Item>, i: nat) returns (m: nat)
    requires i < |items| && keep(items[i])
    ensures m < |Filter(keep, items)| && Filter(keep, items)[m] == items[i]
  {
    hide Filter;
    var pos := Positions(keep, items);
    m :| 0 <= m < |pos| && pos[m] == i;
  }

  lemma {:induction false} LeftOut(all: seq<Item>, d: nat, m: nat)
    requires d <= |all| && m < |all| && all[m] !in all[d..]
    ensures m < d
  {
  }

  lemma {:induction false} FilterIncreases(items: seq<Item>, keep: Item -> bool, id: Id)
    requires Sequenced(items) && forall i | i in items && keep(i) :: i.conversation == id
    ensures var f := Filter(keep, items);
            forall k, l | 0 <= k < l < |f| :: f[k].sequence < f[l].sequence
  {
    hide Sequenced, Filter;
    var f := Filter(keep, items);
    var pos := Positions(keep, items);
    forall k, l | 0 <= k < l < |f| ensures f[k].sequence < f[l].sequence {
      SequencesIncrease(items, pos[k], pos[l]);
    }
  }

  /** While `t` runs, the eligible rows are those of completed turns, then all of `t`. */
  lemma {:induction false} EligibleSplit(turns: map<Id, Turn>, items: seq<Item>, t: Id, n: nat)
    requires RowsOk(turns, items) && RunningLast(turns, items) && Running?(turns, t) && n <= |items|
    ensures Filter(Eligible(turns, turns[t].conversation, t), items[..n])
            == Filter(OfCompleted(turns, turns[t].conversation), items[..n]) + Filter(OfTurn(t), items[..n])
  {
    hide RowsOk, RunningLast, Filter;
    var id := turns[t].conversation;
    if n == 0 {
      FilterEmpty(Eligible(turns, id, t));
      FilterEmpty(OfCompleted(turns, id));
      FilterEmpty(OfTurn(t));
      assert items[..0] == [];
    } else {
      EligibleSplit(turns, items, t, n - 1);
      FilterPrefix(Eligible(turns, id, t), items, n - 1);
      FilterPrefix(OfCompleted(turns, id), items, n - 1);
      FilterPrefix(OfTurn(t), items, n - 1);
      RowConversation(turns, items, n - 1);
      var last := items[n - 1];
      var block := Filter(OfTurn(t), items[..n - 1]);
      if last.turn != t && last.conversation == id && block != [] {
        var pos := Positions(OfTurn(t), items[..n - 1]);
        assert items[pos[0]].turn == t;
        RowConversation(turns, items, pos[0]);
        NothingAfterRunning(turns, items, pos[0], n - 1);
      }
    }
  }

  lemma {:induction false} NothingAfterRunning(turns: map<Id, Turn>, items: seq<Item>, i: nat, j: nat)
    requires RunningLast(turns, items) && i < j < |items| && items[i].conversation == items[j].conversation && Running?(turns, items[i].turn)
    ensures items[j].turn == items[i].turn
  {
  }

  ghost predicate Suffix(rows: seq<Item>, all: seq<Item>) {
    exists d :: 0 <= d <= |all| && rows == all[d..]
  }

  /** What a model may see, given the completed turns' rows and those of the current turn. */
  ghost predicate Lawful(s: Store, completed: seq<Item>, now: seq<Item>, rows: seq<Item>, limit: nat) {
    && Suffix(rows, completed + now)
    && (forall k, l | 0 <= k < l < |rows| :: rows[k].sequence < rows[l].sequence)
    && (forall k | 0 <= k < |rows| :: rows[k].turn in s.turns && s.turns[rows[k].turn].status in {Completed, Running})
    && (|now| <= Clamp(limit) ==> |now| <= |rows| && rows[|rows| - |now|..] == now)
  }

  lemma {:induction false} EligibleStatus(s: Store, id: Id, current: Id, k: nat)
    requires Running?(s.turns, current) && k < |Filter(Eligible(s.turns, id, current), s.items)|
    ensures var row := Filter(Eligible(s.turns, id, current), s.items)[k];
            row.turn in s.turns && s.turns[row.turn].status in {Completed, Running}
  {
    hide Filter;
    var pos := Positions(Eligible(s.turns, id, current), s.items);
  }

  /** The context law, in every reachable store: the rows are a suffix of the completed turns'
      rows followed by all rows of the current turn, in sequence order; nothing of a failed,
      cancelled or interrupted turn is among them, and a limit that covers the current turn
      keeps it whole. */
  lemma {:induction false} ContextLaw(commands: seq<Command>, id: Id, current: Id, limit: nat)
    requires ModelContext(Run(EMPTY, commands), id, current, limit).Some?
    ensures var s := Run(EMPTY, commands);
            Lawful(s, Filter(OfCompleted(s.turns, id), s.items), TurnItems(s, current),
                   ModelContext(s, id, current, limit).value, limit)
  {
    hide Run, Filter, Eligible, TurnsOk, RowsOk, IdsUnique, Sequenced, Framed, RunningLast, Contiguous, Answered;
    Reachable(commands);
    var s := Run(EMPTY, commands);
    assert s.items[..|s.items|] == s.items;
    EligibleSplit(s.turns, s.items, current, |s.items|);
    ContextIsQuery(s, id, current, limit);
    var rows := ModelContext(s, id, current, limit).value;
    var completed, now := Filter(OfCompleted(s.turns, id), s.items), TurnItems(s, current);
    var all := completed + now;
    var d := |all| - |rows|;
    assert rows == all[d..] && Suffix(rows, all);
    forall k | 0 <= k < |rows|
      ensures rows[k].turn in s.turns && s.turns[rows[k].turn].status in {Completed, Running}
    {
      assert rows[k] == all[d + k];
      EligibleStatus(s, id, current, d + k);
    }
  }
}
