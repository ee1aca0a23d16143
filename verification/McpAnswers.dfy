/** What each change of the registry leaves registered, which gates it retires, which callback a name calls,
    and when a lease is granted. */
module McpAnswers {
  import opened McpRegistry

  ghost predicate Reached(w: World) {
    exists steps :: AllProper(START, steps) && w == Run(START, steps)
  }

  lemma {:induction false} ReachedLaws(w: World)
    requires Reached(w)
    ensures Inv(w)
  {
    hide Run, AllProper, Inv;
    var steps :| AllProper(START, steps) && w == Run(START, steps);
    Reachable(steps);
  }

  ghost predicate Before(ms: seq<Manifest>, a: Manifest, b: Manifest) {
    exists i, j :: 0 <= i < j < |ms| && ms[i] == a && ms[j] == b
  }

  ghost predicate InOrder(ms: seq<Manifest>, part: seq<Manifest>) {
    forall i, j | 0 <= i < j < |part| :: Before(ms, part[i], part[j])
  }

  /** The builtins left are those that `goes` does not name, in their order, each with its callback. */
  ghost predicate BuiltinsLeft(r: Registry<GateId>, r': Registry<GateId>, goes: Manifest -> bool) {
    && (forall m :: m in r'.manifests <==> m in r.manifests && !goes(m))
    && InOrder(r.manifests, r'.manifests)
    && (forall name :: name in r'.builtins <==> exists m :: m in r'.manifests && m.name == name)
    && (forall name | name in r'.builtins :: name in r.builtins && r'.builtins[name] == r.builtins[name])
  }

  /** The gates of the others are taken out and retired, and no other gate is. */
  ghost predicate GatesLeft(w: World, w': World, goes: Manifest -> bool) {
    var r, r' := w.live, w'.live;
    && (forall k :: k in r'.gates <==> k in r.gates && forall m | m in r.manifests && goes(m) :: KeyOf(m) != k)
    && (forall k | k in r'.gates :: r'.gates[k] == r.gates[k])
    && (forall g :: g in w'.retired <==> g in w.retired || exists m :: m in r.manifests && goes(m) && KeyOf(m) in r.gates && r.gates[KeyOf(m)] == g)
  }

  ghost predicate Leaves(w: World, w': World, goes: Manifest -> bool) {
    && BuiltinsLeft(w.live, w'.live, goes) && GatesLeft(w, w', goes)
    && w'.live.servers == w.live.servers && w'.snapshots == w.snapshots && w'.leases == w.leases
  }

  lemma {:induction false} BeforeLater(ms: seq<Manifest>, a: Manifest, b: Manifest)
    requires ms != []
    ensures Before(ms[1..], a, b) ==> Before(ms, a, b)
    ensures b in ms[1..] ==> Before(ms, ms[0], b)
  {
    if Before(ms[1..], a, b) {
      var i, j :| 0 <= i < j < |ms[1..]| && ms[1..][i] == a && ms[1..][j] == b;
      assert ms[i + 1] == a && ms[j + 1] == b;
    }
    if b in ms[1..] {
      var j :| 0 <= j < |ms[1..]| && ms[1..][j] == b;
      assert ms[j + 1] == b;
    }
  }

  lemma {:induction false} InOrderLater(ms: seq<Manifest>, part: seq<Manifest>)
    requires ms != [] && InOrder(ms[1..], part) && forall i | 0 <= i < |part| :: part[i] in ms[1..]
    ensures InOrder(ms, part) && InOrder(ms, [ms[0]] + part)
  {
    hide Before;
    var more := [ms[0]] + part;
    forall i, j | 0 <= i < j < |part| ensures Before(ms, part[i], part[j]) { BeforeLater(ms, part[i], part[j]); }
    forall i, j | 0 <= i < j < |more| ensures Before(ms, more[i], more[j]) {
      BeforeLater(ms, more[i], more[j]);
      assert more[j] == part[j - 1] && (i > 0 ==> more[i] == part[i - 1]);
    }
  }

  lemma {:induction false} RejectInOrder(pick: Manifest -> bool, ms: seq<Manifest>)
    ensures InOrder(ms, Reject(pick, ms))
  {
    if ms != [] {
      hide InOrder;
      RejectInOrder(pick, ms[1..]);
      SelectReject(pick, ms[1..]);
      InOrderLater(ms, Reject(pick, ms[1..]));
      assert [] + Reject(pick, ms[1..]) == Reject(pick, ms[1..]);
    } else {
      assert Reject(pick, ms) == [];
    }
  }

  lemma {:induction false} RemoveBuiltins(r: Registry<GateId>, pick: Manifest -> bool)
    requires Ok(r)
    ensures BuiltinsLeft(r, Without(r, pick), pick)
  {
    hide KeyOf, Distinct, KeysApart, AllBuiltIn, ServersOk, InOrder, ServerKeys, KeySet, Select, Reject;
    var r' := Without(r, pick);
    SelectReject(pick, r.manifests);
    RejectInOrder(pick, r.manifests);
    WithoutOk(r, pick);
    forall name ensures name in r'.builtins <==> exists m :: m in r'.manifests && m.name == name {
      assert name in r'.builtins <==> name in NameSet(r'.manifests);
    }
  }

  lemma {:induction false} RemoveGates(w: World, pick: Manifest -> bool)
    ensures GatesLeft(w, Remove(w, pick), pick)
  {
    hide KeyOf, Select, Reject, KeySet, NameSet;
    KeysGone(w.live.manifests, pick);
    forall g ensures g in Remove(w, pick).retired
        <==> g in w.retired || exists m :: m in w.live.manifests && pick(m) && KeyOf(m) in w.live.gates && w.live.gates[KeyOf(m)] == g
    {
      DisplacedGates(w, pick, g);
    }
  }

  lemma {:induction false} RemoveLeaves(w: World, pick: Manifest -> bool)
    requires Inv(w)
    ensures Leaves(w, Remove(w, pick), pick)
  {
    hide BuiltinsLeft, GatesLeft, Ok, GatesOk, Fresh;
    RemoveBuiltins(w.live, pick);
    RemoveGates(w, pick);
  }

  lemma {:induction false} KeysGone(ms: seq<Manifest>, pick: Manifest -> bool)
    ensures forall k :: k in KeySet(Select(pick, ms)) <==> exists m :: m in ms && pick(m) && KeyOf(m) == k
  {
    hide KeyOf;
    SelectReject(pick, ms);
  }

  lemma {:induction false} DisplacedGates(w: World, pick: Manifest -> bool, g: GateId)
    ensures g in Displaced(w, KeySet(Select(pick, w.live.manifests)))
            <==> exists m :: m in w.live.manifests && pick(m) && KeyOf(m) in w.live.gates && w.live.gates[KeyOf(m)] == g
  {
    hide KeyOf, KeySet;
    KeysGone(w.live.manifests, pick);
  }

  /** Removal by name takes out the builtins of that name, removal by source those of the sources, and nothing
      else of what is registered. */
  lemma {:induction false} RemovalExactly(w: World, name: string, sources: set<Source>)
    requires Reached(w)
    ensures Leaves(w, Next(w, RemoveByName(name)), (m: Manifest) => m.name == name)
    ensures Leaves(w, Next(w, RemoveBySource(sources)), (m: Manifest) => m.source in sources)
  {
    hide Reached, Inv, Leaves, Remove;
    ReachedLaws(w);
    RemoveLeaves(w, Named(name));
    RemoveLeaves(w, FromSource(sources));
    SameLeaves(w, Remove(w, Named(name)), Named(name), (m: Manifest) => m.name == name);
    SameLeaves(w, Remove(w, FromSource(sources)), FromSource(sources), (m: Manifest) => m.source in sources);
  }

  lemma {:induction false} SameLeaves(w: World, w': World, pick: Manifest -> bool, goes: Manifest -> bool)
    requires Leaves(w, w', pick) && forall m :: pick(m) == goes(m)
    ensures Leaves(w, w', goes)
  {
    hide KeyOf, InOrder;
  }

  /** Registering takes out the builtins with its id or its name and adds the new one last, with its callback and
      a gate that was never used. */
  lemma {:induction false} RegistrationExactly(w: World, m: Manifest, f: Callback)
    requires Reached(w) && Proper(w, RegisterBuiltin(m, f))
    ensures var w' := Next(w, RegisterBuiltin(m, f));
            exists rest ::
              && Leaves(w, rest, (e: Manifest) => e.id == m.id || e.name == m.name)
              && w'.live.manifests == rest.live.manifests + [m] && w'.live.servers == w.live.servers
              && w'.live.builtins == rest.live.builtins[m.name := f] && m.name !in rest.live.builtins
              && w'.live.gates == rest.live.gates[KeyOf(m) := w.next] && KeyOf(m) !in rest.live.gates
              && w'.retired == rest.retired && w'.snapshots == w.snapshots && w'.leases == w.leases && w'.next == w.next + 1
              && w.next !in w.live.gates.Values && w.next !in w.retired
  {
    hide Reached, Inv, Leaves, KeyOf, Clashes, Select, Reject, NameSet, KeySet;
    ReachedLaws(w);
    var rest := Remove(w, Clashes(m));
    RemoveLeaves(w, Clashes(m));
    SameClashes(m);
    SameLeaves(w, rest, Clashes(m), (e: Manifest) => e.id == m.id || e.name == m.name);
    Unused(w, m, f);
    NameIsFree(w, rest, m);
  }

  lemma {:induction false} SameClashes(m: Manifest)
    ensures forall e :: Clashes(m)(e) == (e.id == m.id || e.name == m.name)
  {
  }

  lemma {:induction false} NameIsFree(w: World, rest: World, m: Manifest)
    requires Leaves(w, rest, Clashes(m))
    ensures m.name !in rest.live.builtins
  {
    hide KeyOf, InOrder;
  }

  lemma {:induction false} Unused(w: World, m: Manifest, f: Callback)
    requires Inv(w) && Proper(w, RegisterBuiltin(m, f))
    ensures KeyOf(m) !in Without(w.live, Clashes(m)).gates && w.next !in w.live.gates.Values && w.next !in w.retired
  {
    hide Ok, Fresh, KeyOf, KeyIsFree, Clashes, Select, Reject;
    WithBuiltinOk(w.live, m, f, w.next);
  }

  /** A prepared server is committed exactly if no server has its name and it brings manifests, all of its own
      source and no two of one name; every one gets a gate that was never used, and nothing else changes. */
  lemma {:induction false} CommitExactly(w: World, server: string, ms: seq<Manifest>)
    requires Reached(w) && Proper(w, Commit(server, ms))
    ensures var w' := Next(w, Commit(server, ms));
            if server !in w.live.servers && ms != [] && (forall m | m in ms :: m.source == Mcp(server))
               && forall i, j | 0 <= i < j < |ms| :: ms[i].name != ms[j].name
            then
              && w'.live == w.live.(servers := w.live.servers[server := ms], gates := w'.live.gates)
              && (forall k :: k in w'.live.gates <==> k in w.live.gates || exists m :: m in ms && KeyOf(m) == k)
              && (forall k | k in w.live.gates :: w'.live.gates[k] == w.live.gates[k])
              && (forall k | k in w'.live.gates && k !in w.live.gates ::
                    w'.live.gates[k] !in w.retired && w'.live.gates[k] !in w.live.gates.Values && w.next <= w'.live.gates[k] < w'.next)
              && w'.retired == w.retired && w'.snapshots == w.snapshots && w'.leases == w.leases
            else w' == w
  {
    hide Reached, Ok, Fresh, KeyOf, FreshGates, AllKeys;
    ReachedLaws(w);
    if server !in w.live.servers && Prepared(server, ms) {
      FreshGatesLaw(ms, w.next);
      NewKeys(w.live, server, ms, w.next);
    }
  }

  lemma {:induction false} NewKeys(r: Registry<GateId>, server: string, ms: seq<Manifest>, next: GateId)
    requires Ok(r) && KeySet(ms) !! AllKeys(r) && FreshGates(ms, next).Keys == KeySet(ms)
    ensures r.gates.Keys !! FreshGates(ms, next).Keys
  {
    hide KeyOf, FreshGates, KeySet, ServerKeys, Distinct, KeysApart, AllBuiltIn, ServersOk;
  }

  /** Unregistering takes out exactly that server with the gates of its manifests, which are retired. */
  lemma {:induction false} UnregisterExactly(w: World, server: string)
    ensures var w' := Next(w, Unregister(server));
            if server in w.live.servers then
              && w'.live.manifests == w.live.manifests && w'.live.builtins == w.live.builtins
              && w'.live.servers.Keys == w.live.servers.Keys - {server}
              && (forall s | s in w'.live.servers :: w'.live.servers[s] == w.live.servers[s])
              && (forall k :: k in w'.live.gates <==> k in w.live.gates && forall m | m in w.live.servers[server] :: KeyOf(m) != k)
              && (forall k | k in w'.live.gates :: w'.live.gates[k] == w.live.gates[k])
              && (forall g :: g in w'.retired <==>
                    g in w.retired || exists m :: m in w.live.servers[server] && KeyOf(m) in w.live.gates && w.live.gates[KeyOf(m)] == g)
              && w'.snapshots == w.snapshots && w'.leases == w.leases
            else w' == w
  {
    hide KeyOf;
  }

  /** Through a snapshot a lease is granted exactly if the lease is new and the live registry still has the very
      gate of the snapshot; a release takes exactly that lease away. */
  lemma {:induction false} LeaseExactly(w: World, i: nat, m: Manifest, lease: LeaseId)
    requires Reached(w) && i < |w.snapshots|
    ensures var k, gates := KeyOf(m), w.snapshots[i].gates;
            Next(w, Acquire(i, m, lease))
            == if lease !in w.leases && k in gates && k in w.live.gates && w.live.gates[k] == gates[k]
               then w.(leases := w.leases[lease := gates[k]]) else w
    ensures Next(w, Release(lease)) == w.(leases := w.leases - {lease})
    ensures Next(w, Clone) == w.(snapshots := w.snapshots + [w.live])
  {
    hide Reached, Ok, KeyOf;
    ReachedLaws(w);
    assert Fresh(w, w.snapshots[i]);
  }

  // ------------------------------------------------------------- callbacks

  /** The callback that the run registered last under the name. */
  function LastCallback(steps: seq<Step>, name: string): (f: Callback)
    requires exists i :: 0 <= i < |steps| && steps[i].RegisterBuiltin? && steps[i].m.name == name
  {
    var last := steps[|steps| - 1];
    if last.RegisterBuiltin? && last.m.name == name then last.f else LastCallback(steps[..|steps| - 1], name)
  }

  lemma {:induction false} RunSnoc(w: World, steps: seq<Step>, step: Step)
    ensures Run(w, steps + [step]) == Next(Run(w, steps), step)
    decreases |steps|
  {
    hide Next;
    if steps == [] {
      assert steps + [step] == [step] && [step][1..] == [];
    } else {
      assert (steps + [step])[1..] == steps[1..] + [step];
      RunSnoc(Next(w, steps[0]), steps[1..], step);
    }
  }

  /** Over every run a builtin name calls the callback that was registered for it last. */
  lemma {:induction false} LastCallbackIsCalled(steps: seq<Step>, name: string)
    requires name in Run(START, steps).live.builtins
    ensures exists i :: 0 <= i < |steps| && steps[i].RegisterBuiltin? && steps[i].m.name == name
    ensures Run(START, steps).live.builtins[name] == LastCallback(steps, name)
    decreases |steps|
  {
    hide Next;
    if steps != [] {
      var n := |steps| - 1;
      assert steps == steps[..n] + [steps[n]];
      RunSnoc(START, steps[..n], steps[n]);
      var last := steps[n];
      CallbackStep(Run(START, steps[..n]), last, name);
      if !(last.RegisterBuiltin? && last.m.name == name) {
        LastCallbackIsCalled(steps[..n], name);
      }
    }
  }

  lemma {:induction false} CallbackStep(w: World, step: Step, name: string)
    requires name in Next(w, step).live.builtins
    ensures if step.RegisterBuiltin? && step.m.name == name then Next(w, step).live.builtins[name] == step.f
            else name in w.live.builtins && Next(w, step).live.builtins[name] == w.live.builtins[name]
  {
    hide KeyOf, KeySet, NameSet, Select, Reject, Clashes, FreshGates, Displaced, Prepared, Acquirable;
  }
}
