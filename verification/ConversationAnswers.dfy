/** What each command of a reachable store answers and does: when it is accepted, in terms of the
    tables alone, what it writes, and that it touches nothing else. */
module ConversationAnswers {
  import opened Whitespace
  import opened Wrappers
  import opened ConversationCatalog
  import opened ConversationModel
  import opened ConversationRuns
  import opened ConversationTranscript

  ghost predicate Reached(s: Store) {
    exists commands :: s == Run(EMPTY, commands)
  }

  lemma {:induction false} ReachedLaws(s: Store)
    requires Reached(s)
    ensures Transcript(s) && Catalog(s)
  {
    hide Run, Transcript, Catalog;
    var commands :| s == Run(EMPTY, commands);
    Reachable(commands);
    ReachableCatalog(commands);
  }

  /** Every turn of the conversation has ended. */
  ghost predicate Idle(s: Store, id: Id) {
    forall u | u in s.turns && s.turns[u].conversation == id :: s.turns[u].status != Running
  }

  ghost predicate Open(s: Store, id: Id) {
    id in s.conversations && s.conversations[id].status == Active
  }

  /** The next row of a conversation: one number higher than it has rows. */
  function RowFor(s: Store, itemId: ItemId, id: Id, kind: ItemKind, content: string): Item {
    Item(itemId, id, itemId.turn, |ConversationItems(s, id)| + 1, kind, content, Digest(content))
  }

  lemma {:induction false} NextIsRowFor(s: Store, itemId: ItemId, id: Id, content: string)
    requires Transcript(s)
    ensures NextItem(s, itemId, id, content) == RowFor(s, itemId, id, KindOf(itemId), content)
  {
    hide TurnsOk, RowsOk, IdsUnique, Framed, RunningLast, Contiguous, Answered, Sequenced, Filter, MaxSequence, Count;
    MaxIsCount(s.items, id);
    FilterCounts(s.items, id);
  }

  lemma {:induction false} FilterNone(keep: Item -> bool, items: seq<Item>)
    requires forall i | i in items :: !keep(i)
    ensures Filter(keep, items) == []
  {
    if items != [] {
      var n := |items| - 1;
      assert items[n] in items;
      FilterNone(keep, items[..n]);
    }
  }

  lemma {:induction false} FilterSnoc(keep: Item -> bool, items: seq<Item>, item: Item)
    ensures Filter(keep, items + [item]) == Filter(keep, items) + if keep(item) then [item] else []
  {
    assert (items + [item])[..|items|] == items;
  }

  // ----------------------------------------------------------------- turns

  /** A new turn begins exactly in an active conversation whose turns have all ended. It adds the running
      row, with this conversation and provider, and the message as the conversation's last item; nothing
      else changes, and a rejected begin changes nothing. */
  lemma {:induction false} BeginIsAnswered(s: Store, t: Id, id: Id, message: string, provider: ProviderBinding)
    requires Reached(s) && t !in s.turns
    ensures var (s', r) := Step(s, BeginTurn(t, id, message, provider));
            && (r.Begun? <==> Open(s, id) && Idle(s, id))
            && (if r.Begun? then
                  var row, item := Turn(id, Running, Digest(message), provider, None), RowFor(s, UserItem(t), id, UserMessage, message);
                  && s' == s.(turns := s.turns[t := row], items := s.items + [item])
                  && r == Begun(row, [item], UserProof(id, t, UserItem(t), Digest(message), |message|))
                else
                  && s' == s
                  && r == Rejected(if Idle(s, id) then ConversationMissingOrInactive else ConversationAlreadyHasRunningTurn))
  {
    hide Transcript, ItemsOk, TurnsOk, Catalog, Filter, MaxSequence, Insertable, BegunReply, RowFor;
    ReachedLaws(s);
    if Open(s, id) && Idle(s, id) {
      BeginAppends(s, t, id, message, provider);
      NextIsRowFor(s, UserItem(t), id, message);
      var s' := Begin(s, t, id, message, provider).0;
      BeginKeeps(s, t, id, message, provider);
      BegunSucceeds(s', t);
      FirstItem(s, t, RowFor(s, UserItem(t), id, UserMessage, message));
    }
  }

  lemma {:induction false} FirstItem(s: Store, t: Id, item: Item)
    requires Transcript(s) && t !in s.turns && item.turn == t
    ensures Filter(OfTurn(t), s.items + [item]) == [item]
  {
    hide TurnsOk, RowsOk, IdsUnique, Sequenced, Framed, RunningLast, Contiguous, Answered, Filter;
    NoRowsBeforeTurn(s, t);
    FilterNone(OfTurn(t), s.items);
    FilterSnoc(OfTurn(t), s.items, item);
  }

  /** A turn id in use: the same conversation, message and provider get the turn back as it now is,
      anything else is drift. */
  lemma {:induction false} BeginAgainIsAnswered(s: Store, t: Id, id: Id, message: string, provider: ProviderBinding)
    requires Reached(s) && t in s.turns
    ensures var turn := s.turns[t];
            var proof := UserProof(turn.conversation, t, UserItem(t), Digest(message), |message|);
            Step(s, BeginTurn(t, id, message, provider))
            == (s, if turn.conversation == id && turn.requestDigest == Digest(message) && turn.provider == provider
                   then Begun(turn, TurnItems(s, t), proof) else Rejected(ConversationTurnIdempotencyPayloadDrift))
  {
    hide Transcript, Catalog, Filter, BegunReply;
    ReachedLaws(s);
    BegunSucceeds(s, t);
  }

  /** Steering with a new id is appended exactly to a running turn of that conversation, as its last item. */
  lemma {:induction false} SteeringIsAnswered(s: Store, steering: Id, id: Id, t: Id, content: string)
    requires Reached(s) && forall i | i in s.items :: i.id != SteeringItem(t, steering)
    ensures var item := RowFor(s, SteeringItem(t, steering), id, UserSteering, content);
            Step(s, AppendSteering(steering, id, t, content))
            == if t in s.turns && s.turns[t].conversation == id && s.turns[t].status == Running
               then (s.(items := s.items + [item]), Steered(item, false))
               else (s, Rejected(ConversationSteeringTargetNotRunning))
  {
    hide Transcript, Catalog, Filter, RowFor, FindItem, Reached;
    ReachedLaws(s);
    assert FindItem(s.items, SteeringItem(t, steering)).None?;
    if t in s.turns && s.turns[t].conversation == id && s.turns[t].status == Running { SteeringAppends(s, steering, t, content); }
  }

  lemma {:induction false} SteeringAppends(s: Store, steering: Id, t: Id, content: string)
    requires Transcript(s) && t in s.turns && s.turns[t].status == Running && FindItem(s.items, SteeringItem(t, steering)).None?
    ensures var id := s.turns[t].conversation;
            var item := RowFor(s, SteeringItem(t, steering), id, UserSteering, content);
            Steer(s, steering, id, t, content) == (s.(items := s.items + [item]), Steered(item, false))
  {
    hide Transcript, ItemsOk, TurnsOk, Filter, MaxSequence, Insertable, RowFor, FindItem;
    NextIsRowFor(s, SteeringItem(t, steering), s.turns[t].conversation, content);
    SteerAppends(s, steering, t, content);
  }

  /** A steering id in use: the same conversation and text get the item back, anything else is drift. */
  lemma {:induction false} SteeringAgainIsAnswered(s: Store, item: Item, steering: Id, id: Id, t: Id, content: string)
    requires Reached(s) && item in s.items && item.id == SteeringItem(t, steering)
    ensures Step(s, AppendSteering(steering, id, t, content))
            == (s, if item.conversation == id && item.content == content then Steered(item, true)
                   else Rejected(ConversationSteeringIdempotencyPayloadDrift))
  {
    hide TurnsOk, IdsUnique, Sequenced, Framed, RunningLast, Contiguous, Answered, Catalog, Filter, MaxSequence, Insertable, FindItem;
    ReachedLaws(s);
    FoundAgain(s.items, item);
    var i :| 0 <= i < |s.items| && s.items[i] == item;
    assert RowOk(s.turns, s.items[i]);
  }

  /** A turn is completed exactly while it runs: the row becomes Completed and the answer is its last item.
      A completed turn gives the same answer back, and any other answer is drift. */
  lemma {:induction false} CompletionIsAnswered(s: Store, t: Id, message: string)
    requires Reached(s)
    ensures var (s', r) := Step(s, CompleteTurn(t, message));
            if t !in s.turns then s' == s && r == Rejected(ConversationTurnMissing)
            else match s.turns[t].status
              case Running =>
                var row, item := s.turns[t].(status := Completed), RowFor(s, AssistantItem(t), s.turns[t].conversation, AssistantMessage, message);
                && s' == s.(turns := s.turns[t := row], items := s.items + [item])
                && r == TurnSnapshot(row, TurnItems(s, t) + [item])
              case Completed =>
                && s' == s && TurnItems(s, t) != []
                && r == if TurnItems(s, t)[|TurnItems(s, t)| - 1].content == message then TurnSnapshot(s.turns[t], TurnItems(s, t))
                        else Rejected(ConversationTurnTerminalPayloadDrift)
              case _ => s' == s && r == Rejected(ConversationTurnNotRunning)
  {
    hide Transcript, Catalog, Filter, RowFor, Reached, IsAnswer;
    ReachedLaws(s);
    if t in s.turns && s.turns[t].status == Running {
      CompletionAppends(s, t, message);
    } else if t in s.turns && s.turns[t].status == Completed {
      AnswerIsLast(s, t, message);
    }
  }

  lemma {:induction false} CompletionAppends(s: Store, t: Id, message: string)
    requires Transcript(s) && t in s.turns && s.turns[t].status == Running
    ensures var row := s.turns[t].(status := Completed);
            var item := RowFor(s, AssistantItem(t), row.conversation, AssistantMessage, message);
            Complete(s, t, message) == (s.(turns := s.turns[t := row], items := s.items + [item]), TurnSnapshot(row, TurnItems(s, t) + [item]))
  {
    hide Transcript, ItemsOk, TurnsOk, Filter, MaxSequence, Insertable;
    CompleteAppends(s, t, message);
    NextIsRowFor(s, AssistantItem(t), s.turns[t].conversation, message);
    var item := RowFor(s, AssistantItem(t), s.turns[t].conversation, AssistantMessage, message);
    FilterSnoc(OfTurn(t), s.items, item);
  }

  lemma {:induction false} AnswerIsLast(s: Store, t: Id, message: string)
    requires Transcript(s) && t in s.turns && s.turns[t].status == Completed
    ensures var b := TurnItems(s, t);
            && b != []
            && ((exists i | i in b :: IsAnswer(i, message)) <==> b[|b| - 1].content == message)
  {
    hide Transcript, Filter, RowOk;
    var b := TurnItems(s, t);
    TurnItemsAreBlock(s, t);
    var last := b[|b| - 1];
    assert last in b && last.digest == Digest(last.content) by { BlockRow(s.turns, t, b, |b| - 1); }
    if i :| i in b && IsAnswer(i, message) {
      var k :| 0 <= k < |b| && b[k] == i;
      assert k == |b| - 1;
    }
    if last.content == message { assert IsAnswer(last, message); }
  }

  lemma {:induction false} BlockRow(turns: map<Id, Turn>, t: Id, b: seq<Item>, k: nat)
    requires Block(turns, t, b) && k < |b|
    ensures b[k].digest == Digest(b[k].content)
  {
  }

  /** Failing and cancelling end a running turn under their own status and error, with no item; the same end
      again is answered with the row, and another one is refused. */
  lemma {:induction false} EndIsAnswered(s: Store, t: Id, error: Option<string>)
    ensures var (s', r) := Step(s, if error.Some? then FailTurn(t, error.value) else CancelTurn(t));
            var status := if error.Some? then Failed else Cancelled;
            if t !in s.turns then s' == s && r == Rejected(ConversationTurnMissing)
            else if s.turns[t].status == Running then
              var row := Turn(s.turns[t].conversation, status, s.turns[t].requestDigest, s.turns[t].provider, error);
              s' == s.(turns := s.turns[t := row]) && r == TurnRow(row)
            else
              s' == s && r == if s.turns[t].status == status && s.turns[t].error == error then TurnRow(s.turns[t])
                              else Rejected(ConversationTurnNotRunning)
  {
  }

  /** A restart makes exactly the running turns interrupted ones, keeps every other row and all items, and
      counts what it interrupted. */
  lemma {:induction false} RestartIsAnswered(s: Store)
    ensures var (s', r) := Step(s, InterruptIncomplete);
            && s' == s.(turns := s'.turns) && s'.turns.Keys == s.turns.Keys
            && (forall t | t in s.turns ::
                  s'.turns[t] == if s.turns[t].status == Running
                                 then Turn(s.turns[t].conversation, Interrupted, s.turns[t].requestDigest, s.turns[t].provider, Some("process_restarted"))
                                 else s.turns[t])
            && r == InterruptedCount(|set t | t in s.turns && s'.turns[t] != s.turns[t]|)
  {
    var s' := Step(s, InterruptIncomplete).0;
    assert (set t | t in s.turns && s'.turns[t] != s.turns[t]) == set t | t in s.turns && s.turns[t].status == Running;
  }

  // --------------------------------------------------------- model context

  /** A row a model may be shown: of a completed turn of the conversation, or of the current one. */
  ghost predicate Shown(s: Store, id: Id, current: Id, row: Item) {
    row.conversation == id && row.turn in s.turns && (s.turns[row.turn].status == Completed || row.turn == current)
  }

  /** There is a context exactly for a running turn of the conversation. A row of the store is in it exactly
      if it may be shown and fewer rows that may be shown come after it than the limit, taken between 1 and
      1000, allows; and the rows come in the order of their numbers. */
  lemma {:induction false} ContextIsAnswered(s: Store, id: Id, current: Id, limit: nat)
    requires Reached(s)
    ensures var context := ModelContext(s, id, current, limit);
            && (context.Some? <==> current in s.turns && s.turns[current].conversation == id && s.turns[current].status == Running)
            && (context.Some? ==>
                  var most := if limit == 0 then 1 else if limit <= 1000 then limit else 1000;
                  && (forall k, l | 0 <= k < l < |context.value| :: context.value[k].sequence < context.value[l].sequence)
                  && (forall row :: row in context.value <==>
                        row in s.items && Shown(s, id, current, row)
                        && |set q | q in s.items && Shown(s, id, current, q) && q.sequence > row.sequence| < most))
  {
    hide Transcript, Catalog, Filter, Sequenced, Reached;
    if ModelContext(s, id, current, limit).Some? {
      ReachedLaws(s);
      ReachedSequenced(s);
      ContextIsQuery(s, id, current, limit);
      var keep := Eligible(s.turns, id, current);
      var all, most := Filter(keep, s.items), if limit == 0 then 1 else if limit <= 1000 then limit else 1000;
      FilterIncreases(s.items, keep, id);
      var rows := ModelContext(s, id, current, limit).value;
      forall row ensures row in rows <==>
          row in s.items && Shown(s, id, current, row) && |set q | q in s.items && Shown(s, id, current, q) && q.sequence > row.sequence| < most
      {
        RowInContext(s.items, keep, row, most);
        assert (set q | q in s.items && Shown(s, id, current, q) && q.sequence > row.sequence)
               == set q | q in s.items && keep(q) && q.sequence > row.sequence;
      }
    }
  }

  lemma {:induction false} ReachedSequenced(s: Store)
    requires Transcript(s)
    ensures Sequenced(s.items)
  {
    hide TurnsOk, RowsOk, IdsUnique, Framed, RunningLast, Contiguous, Answered, Sequenced;
  }

  ghost predicate Increasing(f: seq<Item>) {
    forall k, l | 0 <= k < l < |f| :: f[k].sequence < f[l].sequence
  }

  lemma {:induction false} RowInContext(items: seq<Item>, keep: Item -> bool, row: Item, most: nat)
    requires Increasing(Filter(keep, items))
    ensures row in LastRows(Filter(keep, items), most)
            <==> row in items && keep(row) && |set q | q in items && keep(q) && q.sequence > row.sequence| < most
  {
    hide Filter, Increasing;
    var f := Filter(keep, items);
    FilterMembers(items, keep);
    if row in f {
      var m :| 0 <= m < |f| && f[m] == row;
      LastRow(f, m, most);
      LaterRows(f, m);
      assert (set q | q in items && keep(q) && q.sequence > row.sequence) == set q | q in f && q.sequence > row.sequence;
    } else {
      assert forall q | q in LastRows(f, most) :: q in f;
    }
  }

  lemma {:induction false} LastRow(f: seq<Item>, m: nat, most: nat)
    requires m < |f| && Increasing(f)
    ensures f[m] in LastRows(f, most) <==> |f| - 1 - m < most
  {
    if |f| > most {
      var last := f[|f| - most..];
      if f[m] in last {
        var k :| 0 <= k < most && last[k] == f[m];
        assert f[|f| - most + k] == f[m];
      }
      if m >= |f| - most { assert last[m - (|f| - most)] == f[m]; }
    }
  }

  lemma {:induction false} LaterRows(f: seq<Item>, m: nat)
    requires m < |f| && Increasing(f)
    ensures |set q | q in f && q.sequence > f[m].sequence| == |f| - 1 - m
  {
    Later(f, m);
    forall q | q in f && q.sequence > f[m].sequence ensures exists k :: m < k < |f| && f[k] == q {
      var k :| 0 <= k < |f| && f[k] == q;
    }
    assert (set q | q in f && q.sequence > f[m].sequence) == set k | m < k < |f| :: f[k];
  }

  lemma {:induction false} FilterMembers(items: seq<Item>, keep: Item -> bool)
    ensures forall q :: q in Filter(keep, items) <==> q in items && keep(q)
  {
    hide Filter;
    var pos := Positions(keep, items);
    var f := Filter(keep, items);
    forall q | q in f ensures q in items && keep(q) {
      var k :| 0 <= k < |f| && f[k] == q;
      assert items[pos[k]] == q;
    }
    forall q | q in items && keep(q) ensures q in f {
      var i :| 0 <= i < |items| && items[i] == q;
      var k :| 0 <= k < |pos| && pos[k] == i;
      assert f[k] == q;
    }
  }

  lemma {:induction false} Later(f: seq<Item>, m: nat)
    requires m < |f| && Increasing(f)
    ensures |set k | m < k < |f| :: f[k]| == |f| - 1 - m
    decreases |f| - m
  {
    var after := set k | m < k < |f| :: f[k];
    if m + 1 == |f| {
      assert after == {};
    } else {
      Later(f, m + 1);
      var rest := set k | m + 1 < k < |f| :: f[k];
      assert after == rest + {f[m + 1]} && f[m + 1] !in rest;
    }
  }

  // -------------------------------------------------------------- projects

  lemma {:induction false} ReachedProjects(s: Store)
    requires Reached(s)
    ensures forall p | p in s.projects :: s.projects[p].revision > 0
    ensures s.workspace.newConversationProject.Some? ==>
              var p := s.workspace.newConversationProject.value; p in s.projects && s.projects[p].status == Active
  {
    hide Transcript;
    ReachedLaws(s);
  }

  ghost predicate At(s: Store, id: Id, revision: nat, status: LifecycleStatus) {
    id in s.projects && s.projects[id].revision == revision && s.projects[id].status == status
  }

  /** The project with `row` in its place, and nothing else changed. */
  function WithProject(s: Store, id: Id, row: Project): Store {
    s.(projects := s.projects[id := row])
  }

  /** A scope is changed exactly in an active project at the expected revision: the new name, without white
      space around it, and root are stored, and the revision is one higher. */
  lemma {:induction false} ScopeIsAnswered(s: Store, id: Id, given: string, name: string, root: Option<string>, expected: nat)
    requires Reached(s) && IsTrimmed(given, name)
    ensures Step(s, UpdateProjectScope(id, given, root, expected))
            == if At(s, id, expected, Active) then (WithProject(s, id, Project(name, root, expected + 1, Active)), Accepted)
               else (s, Rejected(if expected == 0 then ProjectRevisionInvalid else ProjectScopeRevisionConflict))
  {
    hide Trim, IsTrimmed;
    TrimIs(given, name);
    hide Reached, RootsOf, TurnStep, ConversationStep, SelectionStep;
    ReachedProjects(s);
  }

  lemma {:induction false} RootCount(s: Store, id: Id)
    ensures |RootsOf(s, id)| == |set q | q in s.readRoots && s.readRoots[q].project == id|
  {
    assert RootsOf(s, id).Keys == set q | q in s.readRoots && s.readRoots[q].project == id;
    assert |RootsOf(s, id)| == |RootsOf(s, id).Keys|;
  }

  /** A read root is added exactly at the expected revision, while the project has fewer than eight, none of
      them with that path, and no root has that id. */
  lemma {:induction false} RootIsAnswered(s: Store, id: Id, rootId: Id, given: string, name: string, path: string, expected: nat)
    requires Reached(s) && IsTrimmed(given, name)
    ensures var fits := |set q | q in s.readRoots && s.readRoots[q].project == id| < 8;
            var unused := rootId !in s.readRoots
                          && forall q | q in s.readRoots && s.readRoots[q].project == id :: s.readRoots[q].path != path;
            Step(s, AddReadRoot(id, rootId, given, path, expected))
            == if At(s, id, expected, Active) && fits && unused
               then (WithProject(s, id, s.projects[id].(revision := expected + 1)).(readRoots := s.readRoots[rootId := ReadRoot(id, name, path)]),
                     Accepted)
               else (s, Rejected(if expected == 0 then ProjectRevisionInvalid
                                 else if !fits then ProjectReadRootLimitReached
                                 else if !At(s, id, expected, Active) then ProjectScopeRevisionConflict else ConstraintViolated))
  {
    hide Trim, IsTrimmed;
    TrimIs(given, name);
    hide Reached, TurnStep, ConversationStep, SelectionStep;
    ReachedProjects(s);
    RootCount(s, id);
    hide RootsOf;
  }

  /** A read root is removed exactly at its project's expected revision. */
  lemma {:induction false} RootRemovalIsAnswered(s: Store, id: Id, rootId: Id, expected: nat)
    requires Reached(s)
    ensures var (s', r) := Step(s, RemoveReadRoot(id, rootId, expected));
            if At(s, id, expected, Active) && rootId in s.readRoots && s.readRoots[rootId].project == id then
              && r == Accepted && s'.readRoots.Keys == s.readRoots.Keys - {rootId}
              && (forall q | q in s'.readRoots :: s'.readRoots[q] == s.readRoots[q])
              && s' == WithProject(s, id, s.projects[id].(revision := expected + 1)).(readRoots := s'.readRoots)
            else s' == s && r == Rejected(if expected == 0 then ProjectRevisionInvalid else ProjectReadRootRemoveUnavailable)
  {
    hide Reached, RootsOf, TurnStep, ConversationStep, SelectionStep;
    ReachedProjects(s);
  }

  /** A project is archived exactly at its expected revision and without active conversations, archived ones
      do not matter; a workspace that was going to use it for new conversations no longer is. */
  lemma {:induction false} ProjectArchivalIsAnswered(s: Store, id: Id, expected: nat)
    requires Reached(s)
    ensures var (s', r) := Step(s, ArchiveProject(id, expected));
            var empty := forall c | c in s.conversations && s.conversations[c].project == Some(id) :: s.conversations[c].status == Archived;
            if At(s, id, expected, Active) && empty then
              && r == Accepted && s'.workspace.newConversationProject != Some(id)
              && (s.workspace.newConversationProject != Some(id) ==> s'.workspace == s.workspace)
              && s'.workspace == s.workspace.(newConversationProject := s'.workspace.newConversationProject)
              && s' == WithProject(s, id, s.projects[id].(revision := expected + 1, status := Archived)).(workspace := s'.workspace)
            else
              && s' == s
              && r == Rejected(if expected == 0 then ProjectRevisionInvalid
                               else if !empty then ProjectArchiveActiveConversationsPresent else ProjectArchiveRevisionConflict)
  {
    hide Reached, RootsOf, TurnStep, ConversationStep, SelectionStep;
    ReachedProjects(s);
  }

  lemma {:induction false} ProjectRestorationIsAnswered(s: Store, id: Id, expected: nat)
    requires Reached(s)
    ensures Step(s, RestoreProject(id, expected))
            == if At(s, id, expected, Archived) then (WithProject(s, id, s.projects[id].(revision := expected + 1, status := Active)), Accepted)
               else (s, Rejected(if expected == 0 then ProjectRevisionInvalid else ProjectRestoreRevisionConflict))
  {
    hide Reached, RootsOf, TurnStep, ConversationStep, SelectionStep;
    ReachedProjects(s);
  }

  /** A project is deleted exactly when it is archived, at its expected revision and in no conversation, with
      its own read roots and no others: the workspace cannot point at it then. */
  lemma {:induction false} ProjectDeletionIsAnswered(s: Store, id: Id, expected: nat)
    requires Reached(s)
    ensures var (s', r) := Step(s, DeleteProject(id, expected));
            if At(s, id, expected, Archived) && forall c | c in s.conversations :: s.conversations[c].project != Some(id) then
              && r == Accepted && s' == s.(projects := s.projects - {id}, readRoots := s'.readRoots)
              && (forall q :: q in s'.readRoots <==> q in s.readRoots && s.readRoots[q].project != id)
              && (forall q | q in s'.readRoots :: s'.readRoots[q] == s.readRoots[q])
            else s' == s && r == Rejected(if expected == 0 then ProjectRevisionInvalid else ProjectDeleteNotEligible)
  {
    hide Reached, RootsOf, TurnStep, ConversationStep, SelectionStep;
    ReachedProjects(s);
  }

  // --------------------------------------------------------- conversations

  function WithConversation(s: Store, id: Id, row: Conversation): Store {
    s.(conversations := s.conversations[id := row])
  }

  ghost predicate ActiveOrNone(s: Store, project: Option<Id>) {
    project.Some? ==> project.value in s.projects && s.projects[project.value].status == Active
  }

  /** A conversation is created exactly under a new id and in no project or an active one; it takes the
      workspace's profile over and is selected. */
  lemma {:induction false} CreationIsAnswered(s: Store, id: Id, given: string, title: string, project: Option<Id>, skill: Option<string>, memory: MemoryMode)
    requires IsTrimmed(given, title)
    ensures Step(s, CreateConversation(id, given, project, skill, memory))
            == if ActiveOrNone(s, project) && id !in s.conversations
               then (WithConversation(s, id, Conversation(title, project, skill, s.workspace.selectedProfile, memory, Active))
                     .(workspace := s.workspace.(selectedConversation := Some(id))), Accepted)
               else (s, Rejected(if ActiveOrNone(s, project) then ConstraintViolated else ConversationAdmissionProjectUnavailable))
  {
    hide TurnStep, ProjectStep, SelectionStep;
    hide Trim, IsTrimmed;
    TrimIs(given, title);
  }

  /** Title, skill and memory mode of a conversation are changed exactly while it is active, each on its own. */
  lemma {:induction false} EditsAreAnswered(s: Store, id: Id, given: string, title: string, skill: Option<string>, memory: MemoryMode)
    requires IsTrimmed(given, title)
    ensures if Open(s, id) then
              var v := s.conversations[id];
              && Step(s, RenameConversation(id, given)) == (WithConversation(s, id, v.(title := title)), Accepted)
              && Step(s, SetSelectedSkill(id, skill)) == (WithConversation(s, id, v.(skill := skill)), Accepted)
              && Step(s, SetMemoryMode(id, memory)) == (WithConversation(s, id, v.(memory := memory)), Accepted)
            else
              && Step(s, RenameConversation(id, given)) == (s, Rejected(ConversationNotFound))
              && Step(s, SetSelectedSkill(id, skill)) == (s, Rejected(ConversationNotFound))
              && Step(s, SetMemoryMode(id, memory)) == (s, Rejected(ConversationNotFound))
  {
    hide TurnStep, ProjectStep, SelectionStep;
    hide Trim, IsTrimmed;
    TrimIs(given, title);
  }

  /** Project and profile of a conversation are changed exactly while it is active and idle, to no project or
      an active one, and to a profile that exists. */
  lemma {:induction false} AssignmentIsAnswered(s: Store, id: Id, project: Option<Id>, profileId: Id)
    ensures Step(s, AssignProject(id, project))
            == if Open(s, id) && Idle(s, id) && ActiveOrNone(s, project)
               then (WithConversation(s, id, s.conversations[id].(project := project)), Accepted)
               else (s, Rejected(ConversationProjectAssignmentUnavailable))
    ensures Step(s, SetSelectedProfile(Some(id), profileId))
            == if Open(s, id) && Idle(s, id) && profileId in s.profiles
               then (WithConversation(s, id, s.conversations[id].(profile := Some(profileId))), Accepted)
               else (s, Rejected(ProviderProfileSelectionUnavailable))
  {
    hide TurnStep, ProjectStep;
  }

  /** A workspace without the conversation selected. */
  ghost predicate Deselected(w: Workspace, w': Workspace, id: Id) {
    && w'.selectedConversation != Some(id) && (w.selectedConversation != Some(id) ==> w' == w)
    && w' == w.(selectedConversation := w'.selectedConversation)
  }

  /** A conversation is archived exactly while it is active and idle, and then is not selected; it is restored
      exactly from the archive, without another look at its project; it is deleted exactly from the archive and
      without turns, as it then has no items either. */
  lemma {:induction false} LifecycleIsAnswered(s: Store, id: Id)
    requires Reached(s)
    ensures var (s', r) := Step(s, ArchiveConversation(id));
            if Open(s, id) && Idle(s, id) then
              && r == Accepted && Deselected(s.workspace, s'.workspace, id)
              && s' == WithConversation(s, id, s.conversations[id].(status := Archived)).(workspace := s'.workspace)
            else s' == s && r == Rejected(ConversationArchiveNotEligible)
    ensures Step(s, RestoreConversation(id))
            == if id in s.conversations && s.conversations[id].status == Archived
               then (WithConversation(s, id, s.conversations[id].(status := Active)), Accepted)
               else (s, Rejected(ConversationRestoreNotEligible))
    ensures Step(s, DeleteConversation(id))
            == if id in s.conversations && s.conversations[id].status == Archived && forall t | t in s.turns :: s.turns[t].conversation != id
               then (s.(conversations := s.conversations - {id}), Accepted)
               else (s, Rejected(ConversationDeleteNotEligible))
  {
    hide Reached, TurnStep, ProjectStep, SelectionStep;
    NothingSelectedInArchive(s, id);
    if forall t | t in s.turns :: s.turns[t].conversation != id { NoTurnsNoItems(s, id); }
  }

  lemma {:induction false} NothingSelectedInArchive(s: Store, id: Id)
    requires Reached(s)
    ensures s.workspace.selectedConversation == Some(id) ==> Open(s, id)
  {
    hide Transcript;
    ReachedLaws(s);
  }

  lemma {:induction false} NoTurnsNoItems(s: Store, id: Id)
    requires Reached(s) && forall t | t in s.turns :: s.turns[t].conversation != id
    ensures forall i | i in s.items :: i.conversation != id
  {
    hide Catalog, TurnsOk, IdsUnique, Sequenced, Framed, RunningLast, Contiguous, Answered;
    ReachedLaws(s);
    forall i | i in s.items ensures i.conversation != id {
      var k :| 0 <= k < |s.items| && s.items[k] == i;
      assert RowOk(s.turns, s.items[k]);
    }
  }

  // ---------------------------------------------------- profiles, selections

  /** A project is created exactly under a new id, at revision one; as the scope of new conversations it is
      selected for them too. */
  lemma {:induction false} ProjectCreationIsAnswered(s: Store, id: Id, given: string, name: string, root: Option<string>, scopeRoot: string)
    requires IsTrimmed(given, name)
    ensures if id in s.projects then
              && Step(s, CreateProject(id, given, root)) == (s, Rejected(ConstraintViolated))
              && Step(s, CreateProjectAsScope(id, given, scopeRoot)) == (s, Rejected(ConstraintViolated))
            else
              && Step(s, CreateProject(id, given, root)) == (WithProject(s, id, Project(name, root, 1, Active)), Accepted)
              && Step(s, CreateProjectAsScope(id, given, scopeRoot))
                 == (WithProject(s, id, Project(name, Some(scopeRoot), 1, Active))
                     .(workspace := s.workspace.(newConversationProject := Some(id))), Accepted)
  {
    hide TurnStep, ProjectStep, ConversationStep;
    hide Trim, IsTrimmed;
    TrimIs(given, name);
  }

  /** What is selected has to be there: no project or an active one, an active conversation, an existing profile. */
  lemma {:induction false} SelectionIsAnswered(s: Store, project: Option<Id>, id: Id, profileId: Id)
    ensures Step(s, SetNewConversationProject(project))
            == if ActiveOrNone(s, project) then (s.(workspace := s.workspace.(newConversationProject := project)), Accepted)
               else (s, Rejected(WorkspaceProjectSelectionUnavailable))
    ensures Step(s, SetSelectedConversation(id))
            == if Open(s, id) then (s.(workspace := s.workspace.(selectedConversation := Some(id))), Accepted)
               else (s, Rejected(ConversationSelectionUnavailable))
    ensures Step(s, SetSelectedProfile(None, profileId))
            == if profileId in s.profiles then (s.(workspace := s.workspace.(selectedProfile := Some(profileId))), Accepted)
               else (s, Rejected(ProviderProfileSelectionUnavailable))
  {
    hide TurnStep, ProjectStep, ConversationStep;
  }

  /** A profile is stored, with its connection, exactly if it belongs to that connection and no other profile
      of the connection has its model. */
  lemma {:induction false} ProfileIsAnswered(s: Store, connectionId: Id, connection: Connection, profileId: Id, profile: Profile)
    ensures var alone := forall p | p in s.profiles && p != profileId && s.profiles[p].connection == connectionId :: s.profiles[p].model != profile.model;
            Step(s, UpsertProfile(connectionId, connection, profileId, profile))
            == if profile.connection == connectionId && alone
               then (s.(connections := s.connections[connectionId := connection], profiles := s.profiles[profileId := profile]), Accepted)
               else (s, Rejected(if profile.connection == connectionId then ConstraintViolated else ProviderProfileConnectionMismatch))
  {
    hide TurnStep, ProjectStep, ConversationStep;
  }

  ghost predicate Emptied(selected: Option<Id>, selected': Option<Id>, profiles: map<Id, Profile>, connection: Id) {
    if selected.Some? && selected.value in profiles && profiles[selected.value].connection == connection then selected' == None
    else selected' == selected
  }

  /** Deleting a connection deletes exactly its own profiles and empties exactly the selections of those. */
  lemma {:induction false} ConnectionDeletionIsAnswered(s: Store, id: Id)
    ensures var (s', r) := Step(s, DeleteConnection(id));
            if id in s.connections then
              && r == Accepted
              && s' == s.(connections := s.connections - {id}, profiles := s'.profiles, conversations := s'.conversations,
                          workspace := s.workspace.(selectedProfile := s'.workspace.selectedProfile))
              && (forall p :: p in s'.profiles <==> p in s.profiles && s.profiles[p].connection != id)
              && (forall p | p in s'.profiles :: s'.profiles[p] == s.profiles[p])
              && Emptied(s.workspace.selectedProfile, s'.workspace.selectedProfile, s.profiles, id)
              && s'.conversations.Keys == s.conversations.Keys
              && (forall c | c in s.conversations ::
                    && s'.conversations[c] == s.conversations[c].(profile := s'.conversations[c].profile)
                    && Emptied(s.conversations[c].profile, s'.conversations[c].profile, s.profiles, id))
            else s' == s && r == Rejected(ProviderConnectionNotFound)
  {
    hide TurnStep, ProjectStep, ConversationStep;
  }
}
