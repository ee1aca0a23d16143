/** The lock-free gate in front of one executor instance: one 64-bit word holds a retired
    bit and a count of leases, under any interleaving of any number of threads. */
module ExecutorGate {

  const RETIRED: nat := 0x8000_0000_0000_0000
  const INFLIGHT_MASK: nat := RETIRED - 1
  const WORD_SIZE: nat := 0x1_0000_0000_0000_0000

  type LeaseId = nat
  type AttemptId = nat

  // ---------------------------------------------------- operations on the word

  predicate IsRetired(word: nat) { word / RETIRED % 2 == 1 }

  function Inflight(word: nat): nat { word % RETIRED }

  function FetchOrRetired(word: nat): nat { if IsRetired(word) then word else word + RETIRED }

  function Increment(word: nat): nat { (word + 1) % WORD_SIZE }

  function Decrement(word: nat): nat { (word + WORD_SIZE - 1) % WORD_SIZE }

  // --------------------------------------------------------- the state machine

  /** The shared word, and what the threads hold: live leases, and acquire attempts
      in their retry loop with the word each of them last observed. */
  datatype Gate = Gate(word: nat, leases: set<LeaseId>, attempts: map<AttemptId, nat>)

  const NEW := Gate(0, {}, map[])

  /** One atomic action of some thread. `Exchange` is one turn of an attempt's loop, down to
      its weak compare-exchange, which may fail for no reason. */
  datatype Action =
    | Load(attempt: AttemptId)
    | Exchange(attempt: AttemptId, spurious: bool, lease: LeaseId)
    | Retire
    | Drop(lease: LeaseId)

  datatype Outcome = Running | Leased | BailedRetired | BailedExhausted | NoOutcome

  /** Attempts and leases are owned: none is started or dropped twice. */
  predicate Enabled(g: Gate, a: Action) {
    match a
    case Load(attempt) => attempt !in g.attempts
    case Exchange(attempt, _, lease) => attempt in g.attempts && lease !in g.leases
    case Retire => true
    case Drop(lease) => lease in g.leases
  }

  function Turn(g: Gate, a: Action): (Gate, Outcome)
    requires a.Exchange? && Enabled(g, a)
  {
    var current := g.attempts[a.attempt];
    var ended := g.attempts - {a.attempt};
    if IsRetired(current) then (g.(attempts := ended), BailedRetired)
    else if Inflight(current) == INFLIGHT_MASK then (g.(attempts := ended), BailedExhausted)
    else if g.word == current && !a.spurious
      then (Gate(Increment(current), g.leases + {a.lease}, ended), Leased)
    else (g.(attempts := g.attempts[a.attempt := g.word]), Running)
  }

  function Next(g: Gate, a: Action): Gate {
    if !Enabled(g, a) then g
    else match a
      case Load(attempt) => g.(attempts := g.attempts[attempt := g.word])
      case Exchange(_, _, _) => Turn(g, a).0
      case Retire => g.(word := FetchOrRetired(g.word))
      case Drop(lease) => g.(word := Decrement(g.word), leases := g.leases - {lease})
  }

  function Run(g: Gate, actions: seq<Action>): Gate
    decreases |actions|
  {
    if actions == [] then g else Run(Next(g, actions[0]), actions[1..])
  }

  // ------------------------------------------------------------------- safety

  ghost predicate Inv(g: Gate) {
    && g.word < WORD_SIZE
    && Inflight(g.word) == |g.leases|
    && (forall a | a in g.attempts :: g.attempts[a] < WORD_SIZE)
    && (forall a | a in g.attempts && IsRetired(g.attempts[a]) :: IsRetired(g.word))
  }

  lemma {:induction false} WordParts(word: nat)
    requires word < WORD_SIZE
    ensures IsRetired(word) <==> word >= RETIRED
    ensures Inflight(word) == if word >= RETIRED then word - RETIRED else word
  {
  }

  lemma {:induction false} WordLaws(word: nat)
    requires word < WORD_SIZE
    ensures word == Inflight(word) + (if IsRetired(word) then RETIRED else 0) && Inflight(word) <= INFLIGHT_MASK
    ensures Inflight(word) < INFLIGHT_MASK ==>
              Increment(word) == word + 1 && Inflight(word + 1) == Inflight(word) + 1 && (IsRetired(word + 1) <==> IsRetired(word))
    ensures Inflight(word) > 0 ==>
              Decrement(word) == word - 1 && Inflight(word - 1) == Inflight(word) - 1 && (IsRetired(word - 1) <==> IsRetired(word))
    ensures FetchOrRetired(word) < WORD_SIZE && IsRetired(FetchOrRetired(word)) && Inflight(FetchOrRetired(word)) == Inflight(word)
  {
    hide IsRetired, Inflight;
    WordParts(word);
    if word + 1 < WORD_SIZE { WordParts(word + 1); }
    if word > 0 { WordParts(word - 1); }
    WordParts(FetchOrRetired(word));
  }

  lemma {:induction false} ExchangeLaw(g: Gate, a: Action)
    requires Inv(g) && a.Exchange? && Enabled(g, a)
    ensures Inv(Next(g, a)) && (IsRetired(Next(g, a).word) <==> IsRetired(g.word))
  {
    hide IsRetired, Inflight, Increment;
    WordLaws(g.word);
    assert |g.leases + {a.lease}| == |g.leases| + 1;
  }

  lemma {:induction false} DropLaw(g: Gate, lease: LeaseId)
    requires Inv(g) && lease in g.leases
    ensures Inv(Next(g, Drop(lease))) && (IsRetired(Next(g, Drop(lease)).word) <==> IsRetired(g.word))
  {
    hide IsRetired, Inflight, Decrement;
    WordLaws(g.word);
    assert |g.leases - {lease}| == |g.leases| - 1;
  }

  /** Each action keeps the count and the retired bit apart: nothing carries into the bit
      or borrows from it, and only retiring sets it. */
  lemma {:induction false} StepLaw(g: Gate, a: Action)
    requires Inv(g)
    ensures Inv(Next(g, a))
    ensures IsRetired(Next(g, a).word) <==> IsRetired(g.word) || a == Retire
  {
    hide IsRetired, Inflight, FetchOrRetired, Turn;
    if Enabled(g, a) {
      match a {
        case Load(_) =>
        case Exchange(_, _, _) => ExchangeLaw(g, a);
        case Retire => WordLaws(g.word);
        case Drop(lease) => DropLaw(g, lease);
      }
    }
  }

  lemma {:induction false} RunLaw(g: Gate, actions: seq<Action>)
    requires Inv(g)
    ensures Inv(Run(g, actions))
    ensures IsRetired(Run(g, actions).word) <==> IsRetired(g.word) || Retire in actions
    ensures IsRetired(g.word) ==> Run(g, actions).leases <= g.leases
    decreases |actions|
  {
    if actions != [] {
      var g1 := Next(g, actions[0]);
      StepLaw(g, actions[0]);
      RunLaw(g1, actions[1..]);
      if IsRetired(g.word) { NoLeaseOnceRetired(g, actions[0]); }
      assert actions == [actions[0]] + actions[1..];
    }
  }

  lemma {:induction false} NoLeaseOnceRetired(g: Gate, a: Action)
    requires Inv(g) && IsRetired(g.word)
    ensures Next(g, a).leases <= g.leases
  {
  }

  /** Over every interleaving: the low 63 bits count the live leases, and the retired bit
      says whether anyone has retired the gate. */
  lemma {:induction false} GateLaw(actions: seq<Action>)
    ensures var g := Run(NEW, actions);
            && g.word == |g.leases| + (if Retire in actions then RETIRED else 0)
            && |g.leases| <= INFLIGHT_MASK
  {
    RunLaw(NEW, actions);
    WordLaws(Run(NEW, actions).word);
  }

  /** After a retire no acquire succeeds, whatever it had observed before; leases taken
      before stay valid until they are dropped. */
  lemma {:induction false} NothingAfterRetire(before: seq<Action>, after: seq<Action>)
    requires Retire in before
    ensures var g, g' := Run(NEW, before), Run(NEW, before + after);
            && g'.leases <= g.leases
            && (forall l | l in g.leases && l !in g'.leases :: Drop(l) in after)
  {
    RunLaw(NEW, before);
    RunConcat(NEW, before, after);
    RunLaw(Run(NEW, before), after);
    forall l | l in Run(NEW, before).leases && l !in Run(NEW, before + after).leases ensures Drop(l) in after {
      if Drop(l) !in after { LeaseKept(Run(NEW, before), after, l); }
    }
  }

  lemma {:induction false} RunConcat(g: Gate, a: seq<Action>, b: seq<Action>)
    ensures Run(g, a + b) == Run(Run(g, a), b)
    decreases |a|
  {
    if a == [] {
      assert a + b == b;
    } else {
      assert (a + b)[1..] == a[1..] + b;
      RunConcat(Next(g, a[0]), a[1..], b);
    }
  }

  lemma {:induction false} LeaseKept(g: Gate, actions: seq<Action>, l: LeaseId)
    requires l in g.leases && Drop(l) !in actions
    ensures l in Run(g, actions).leases
    decreases |actions|
  {
    if actions != [] {
      LeaseKept(Next(g, actions[0]), actions[1..], l);
    }
  }

  /** What an attempt last observed was the word at some moment of the run. */
  lemma {:induction false} ObservedOnce(actions: seq<Action>, attempt: AttemptId) returns (n: nat)
    requires attempt in Run(NEW, actions).attempts
    ensures n <= |actions| && Run(NEW, actions[..n]).word == Run(NEW, actions).attempts[attempt]
    decreases |actions|
  {
    hide IsRetired, Inflight, Increment, Decrement, FetchOrRetired;
    var last := |actions| - 1;
    var before, a := actions[..last], actions[last];
    assert actions == before + [a];
    RunConcat(NEW, before, [a]);
    RunOne(Run(NEW, before), a);
    var g := Run(NEW, before);
    if attempt in g.attempts && Next(g, a).attempts[attempt] == g.attempts[attempt] {
      n := ObservedOnce(before, attempt);
      assert actions[..n] == before[..n];
    } else {
      n := last;
    }
  }

  /** The gate was full at some moment of the run. */
  ghost predicate WasFull(actions: seq<Action>) {
    exists n :: 0 <= n <= |actions| && |Run(NEW, actions[..n]).leases| == INFLIGHT_MASK
  }

  /** Answers are true: an attempt that wins finds the gate unretired with room left, one that
      bails as retired finds it retired, one that bails as exhausted has seen it full, and a loop
      goes on only when the word has moved or the exchange failed for no reason. */
  lemma {:induction false} AnswersAreTrue(actions: seq<Action>, a: Action)
    requires a.Exchange? && Enabled(Run(NEW, actions), a)
    ensures var g := Run(NEW, actions);
            var (g', outcome) := Turn(g, a);
            && (outcome == Leased ==> Retire !in actions && |g.leases| < INFLIGHT_MASK && g'.word == g.word + 1)
            && (outcome == BailedRetired ==> Retire in actions)
            && (outcome == BailedExhausted ==> WasFull(actions))
            && (outcome == Running ==> a.spurious || g.word != g.attempts[a.attempt])
  {
    RunLaw(NEW, actions);
    var n := ObservedOnce(actions, a.attempt);
    RunLaw(NEW, actions[..n]);
  }

  /** Loading and retrying: an attempt starts with the word as it is. A turn of its loop gives up if the word it
      has seen is retired or full. Otherwise its exchange grants the lease, and adds one to the word, if it does
      not fail for no reason and the word is still the one seen; if not, the attempt goes on with the word as it
      is now. Nothing else changes. */
  lemma {:induction false} TurnExactly(actions: seq<Action>, attempt: AttemptId, spurious: bool, lease: LeaseId)
    requires var g := Run(NEW, actions); attempt !in g.attempts || lease !in g.leases
    ensures var g := Run(NEW, actions);
            attempt !in g.attempts ==> Next(g, Load(attempt)) == Gate(g.word, g.leases, g.attempts[attempt := g.word])
    ensures var g := Run(NEW, actions);
            attempt in g.attempts ==>
              var seen, ended := g.attempts[attempt], g.attempts - {attempt};
              Turn(g, Exchange(attempt, spurious, lease))
              == if seen >= RETIRED then (Gate(g.word, g.leases, ended), BailedRetired)
                 else if seen == RETIRED - 1 then (Gate(g.word, g.leases, ended), BailedExhausted)
                 else if !spurious && seen == g.word then (Gate(g.word + 1, g.leases + {lease}, ended), Leased)
                 else (Gate(g.word, g.leases, g.attempts[attempt := g.word]), Running)
  {
    RunLaw(NEW, actions);
    hide Run, IsRetired, Inflight;
    var g := Run(NEW, actions);
    if attempt in g.attempts {
      WordParts(g.attempts[attempt]);
      WordLaws(g.attempts[attempt]);
    }
  }

  /** So a lease is granted exactly if the exchange does not fail for no reason, nothing has moved the word since
      the attempt last saw it, nobody has retired the gate, and there is room. */
  lemma {:induction false} GrantedExactly(actions: seq<Action>, attempt: AttemptId, spurious: bool, lease: LeaseId)
    requires var g := Run(NEW, actions); attempt in g.attempts && lease !in g.leases
    ensures var g := Run(NEW, actions);
            Turn(g, Exchange(attempt, spurious, lease)).1 == Leased
            <==> !spurious && g.attempts[attempt] == g.word && Retire !in actions && |g.leases| < INFLIGHT_MASK
  {
    TurnExactly(actions, attempt, spurious, lease);
    GateLaw(actions);
    hide Run, Turn;
  }

  /** Dropping a live lease takes exactly that one away: the count is one lower, and the retired bit, the other
      leases and every attempt stay. */
  lemma {:induction false} DropExactly(actions: seq<Action>, lease: LeaseId)
    requires lease in Run(NEW, actions).leases
    ensures var g, g' := Run(NEW, actions), Run(NEW, actions + [Drop(lease)]);
            && g'.leases == g.leases - {lease} && g'.attempts == g.attempts
            && g'.word + 1 == g.word && g'.word % RETIRED + 1 == g.word % RETIRED
            && (g'.word >= RETIRED <==> g.word >= RETIRED)
  {
    RunLaw(NEW, actions);
    hide Run, IsRetired, Inflight;
    RunConcat(NEW, actions, [Drop(lease)]);
    RunOne(Run(NEW, actions), Drop(lease));
    WordLaws(Run(NEW, actions).word);
    WordParts(Run(NEW, actions).word);
    WordParts(Run(NEW, actions).word - 1);
  }

  /** Action `n` of the run was an exchange that was answered with this lease. */
  ghost predicate GrantedAt(actions: seq<Action>, n: nat, lease: LeaseId) {
    && n < |actions| && actions[n].Exchange? && actions[n].lease == lease
    && var g := Run(NEW, actions[..n]);
       Enabled(g, actions[n]) && Turn(g, actions[n]).1 == Leased
  }

  /** Over every interleaving the live leases are those that were granted and not dropped since. */
  lemma {:induction false} LeasesExactly(actions: seq<Action>, lease: LeaseId)
    ensures lease in Run(NEW, actions).leases <==> exists n: nat :: GrantedAt(actions, n, lease) && Drop(lease) !in actions[n + 1..]
    decreases |actions|
  {
    hide Run, IsRetired, Inflight, Increment, Decrement, FetchOrRetired, GrantedAt;
    if actions == [] {
      RunNone(NEW);
      assert forall n: nat :: !GrantedAt(actions, n, lease) by { NothingGranted(lease); }
    } else {
      var last := |actions| - 1;
      var before, a := actions[..last], actions[last];
      assert actions == before + [a];
      LeasesExactly(before, lease);
      RunConcat(NEW, before, [a]);
      RunOne(Run(NEW, before), a);
      GrantedLast(actions, lease);
      forall n: nat | n < last
        ensures GrantedAt(actions, n, lease) <==> GrantedAt(before, n, lease)
        ensures Drop(lease) in actions[n + 1..] <==> Drop(lease) in before[n + 1..] || a == Drop(lease)
      {
        GrantedBefore(actions, n, lease);
        assert actions[n + 1..] == before[n + 1..] + [a];
      }
      GrantBounds(actions, before, lease);
      assert actions[last + 1..] == [];
      if a != Drop(lease) && lease in Run(NEW, before).leases {
        var n: nat :| GrantedAt(before, n, lease) && Drop(lease) !in before[n + 1..];
      }
    }
  }

  lemma {:induction false} NothingGranted(lease: LeaseId)
    ensures forall n: nat :: !GrantedAt([], n, lease)
  {
  }

  lemma {:induction false} GrantBounds(actions: seq<Action>, before: seq<Action>, lease: LeaseId)
    ensures forall n: nat | GrantedAt(actions, n, lease) :: n < |actions| && actions[n] != Drop(lease)
    ensures forall n: nat | GrantedAt(before, n, lease) :: n < |before|
  {
  }

  /** The last action adds the lease exactly if it was granted by it, and takes it away exactly if it drops it. */
  lemma {:induction false} GrantedLast(actions: seq<Action>, lease: LeaseId)
    requires actions != []
    ensures var last := |actions| - 1;
            var g := Run(NEW, actions[..last]);
            && (GrantedAt(actions, last, lease) ==> lease in Next(g, actions[last]).leases)
            && (lease in Next(g, actions[last]).leases ==>
                  GrantedAt(actions, last, lease) || (lease in g.leases && actions[last] != Drop(lease)))
            && (lease in g.leases && actions[last] != Drop(lease) ==> lease in Next(g, actions[last]).leases)
            && (actions[last] == Drop(lease) ==> lease !in Next(g, actions[last]).leases)
  {
    hide Run, IsRetired, Inflight, Increment, Decrement, FetchOrRetired;
  }

  lemma {:induction false} GrantedBefore(actions: seq<Action>, n: nat, lease: LeaseId)
    requires n < |actions| - 1
    ensures GrantedAt(actions, n, lease) <==> GrantedAt(actions[..|actions| - 1], n, lease)
  {
    hide Run, Turn;
    assert actions[..|actions| - 1][..n] == actions[..n];
  }

  // ---------------------------------------------------------------- the object

  datatype Acquisition = Acquired(lease: LeaseId) | InstanceRetired | InflightExhausted | StillTrying

  /** What happens to the word between two turns of the loop, and whether the exchange that
      follows fails spuriously. */
  datatype Interference = Interference(others: seq<Action>, spurious: bool)

  /** The others own neither this attempt nor the lease it would get. */
  ghost predicate Foreign(others: seq<Action>, attempt: AttemptId, lease: LeaseId) {
    forall a | a in others :: ForeignAction(a, attempt, lease)
  }

  ghost predicate ForeignAction(a: Action, attempt: AttemptId, lease: LeaseId) {
    match a
    case Load(b) => b != attempt
    case Exchange(b, _, l) => b != attempt && l != lease
    case Retire => true
    case Drop(l) => l != lease
  }

  /** The interleaving that the first `n` turns of an attempt's loop amount to. */
  function Interleaving(attempt: AttemptId, lease: LeaseId, schedule: seq<Interference>, n: nat): seq<Action>
    requires n <= |schedule|
  {
    if n == 0 then [Load(attempt)]
    else Interleaving(attempt, lease, schedule, n - 1)
         + schedule[n - 1].others + [Exchange(attempt, schedule[n - 1].spurious, lease)]
  }

  lemma {:induction false} ForeignKeeps(g: Gate, others: seq<Action>, attempt: AttemptId, lease: LeaseId)
    requires Foreign(others, attempt, lease) && attempt in g.attempts && lease !in g.leases
    ensures var g' := Run(g, others);
            attempt in g'.attempts && g'.attempts[attempt] == g.attempts[attempt] && lease !in g'.leases
    decreases |others|
  {
    if others != [] {
      var a := others[0];
      assert ForeignAction(a, attempt, lease);
      assert others == [a] + others[1..];
      ForeignKeeps(Next(g, a), others[1..], attempt, lease);
    }
  }

  class ExecutorInstanceGate {
    var state: nat
    /** The same word together with what every thread holds. */
    var held: Gate

    ghost predicate Valid()
      reads this
    {
      state == held.word && Inv(held)
    }

    constructor ()
      ensures Valid() && held == NEW
    {
      state := 0;
      held := NEW;
    }

    method RetireGate()
      requires Valid()
      modifies this
      ensures Valid() && held == Next(old(held), Retire) && IsRetired(state)
      ensures held.leases == old(held.leases) && held.attempts == old(held.attempts)
    {
      StepLaw(held, Retire);
      state := FetchOrRetired(state);
      held := Next(held, Retire);
    }

    method DropLease(lease: LeaseId)
      requires Valid() && lease in held.leases
      modifies this
      ensures Valid() && held == Next(old(held), Drop(lease))
      ensures held.leases == old(held.leases) - {lease} && held.attempts == old(held.attempts) && state + 1 == old(state)
    {
      StepLaw(held, Drop(lease));
      WordLaws(state);
      state := Decrement(state);
      held := Next(held, Drop(lease));
    }

    /** The other threads run. */
    method Interfere(others: seq<Action>)
      requires Valid()
      modifies this
      ensures Valid() && held == Run(old(held), others)
    {
      RunLaw(held, others);
      held := Run(held, others);
      state := held.word;
    }

    /** The acquire loop, with the others running before each of its compare-exchanges, for as
        many turns as the schedule has: what it does to the gate is one interleaving. */
    method TryAcquire(attempt: AttemptId, lease: LeaseId, schedule: seq<Interference>) returns (r: Acquisition, ghost turns: nat)
      requires Valid() && attempt !in held.attempts && lease !in held.leases
      requires forall i | 0 <= i < |schedule| :: Foreign(schedule[i].others, attempt, lease)
      modifies this
      ensures Valid() && turns <= |schedule|
      ensures held == Run(old(held), Interleaving(attempt, lease, schedule, turns))
      ensures r.Acquired? ==> r.lease == lease && lease in held.leases && !IsRetired(state)
      ensures r.InstanceRetired? ==> IsRetired(state)
      ensures old(IsRetired(state)) && schedule != [] ==> r.InstanceRetired?
      ensures schedule != [] && schedule[0] == Interference([], false)
        ==> !old(IsRetired(state)) && |old(held.leases)| < INFLIGHT_MASK ==> r == Acquired(lease)
      ensures r.InstanceRetired? || r.InflightExhausted? ==> lease !in held.leases && attempt !in held.attempts
      ensures r.StillTrying? ==> turns == |schedule| && lease !in held.leases && attempt in held.attempts
    {
      hide IsRetired, Inflight, Increment, Decrement, FetchOrRetired, Foreign, Run;
      var current := state;
      held := Next(held, Load(attempt));
      StepLaw(old(held), Load(attempt));
      turns := 0;
      RunOne(old(held), Load(attempt));
      for i := 0 to |schedule|
        invariant Valid() && turns == i
        invariant held == Run(old(held), Interleaving(attempt, lease, schedule, i))
        invariant attempt in held.attempts && held.attempts[attempt] == current && lease !in held.leases
        invariant i == 0 ==> current == old(state)
        invariant i > 0 ==> !old(IsRetired(state))
        invariant i > 0 && schedule[0] == Interference([], false) ==> |old(held.leases)| == INFLIGHT_MASK
        invariant held.leases == old(held.leases) || i > 0
      {
        var before := Interleaving(attempt, lease, schedule, i);
        ForeignKeeps(held, schedule[i].others, attempt, lease);
        RunConcat(old(held), before, schedule[i].others);
        RunNone(held);
        Interfere(schedule[i].others);
        var exchange := Exchange(attempt, schedule[i].spurious, lease);
        RunConcat(old(held), before + schedule[i].others, [exchange]);
        RunOne(held, exchange);
        StepLaw(held, exchange);
        turns := i + 1;
        held := Next(held, exchange);
        if IsRetired(current) {
          return InstanceRetired, turns;
        }
        if Inflight(current) == INFLIGHT_MASK {
          return InflightExhausted, turns;
        }
        if state == current && !schedule[i].spurious {
          state := Increment(current);
          return Acquired(lease), turns;
        }
        current := state;
      }
      return StillTrying, turns;
    }
  }

  lemma {:induction false} RunNone(g: Gate)
    ensures Run(g, []) == g
  {
  }

  lemma {:induction false} RunOne(g: Gate, a: Action)
    ensures Run(g, [a]) == Next(g, a)
  {
    var one := [a];
    assert one[1..] == [];
  }
}
