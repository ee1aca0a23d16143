/** The registry object and its clones: maps are copied, gates are shared by reference. */
module McpLiveRegistry {
  import opened Wrappers
  import opened ExecutorGate
  import opened McpRegistry

  type SharedGate = ExecutorInstanceGate

  /** Retiring a gate changes nothing that its holders hold. */
  twostate predicate KeepsHolders(gate: SharedGate)
    reads gate
  {
    gate.Valid() && gate.held.leases == old(gate.held.leases) && gate.held.attempts == old(gate.held.attempts)
  }

  /** Nothing at all has happened to a gate. */
  twostate predicate Untouched(gate: SharedGate)
    reads gate
  {
    gate.held == old(gate.held) && gate.state == old(gate.state)
  }

  /** The gates of `out` are retired with all holders kept, and no other gate is touched. */
  twostate predicate RetiresOnly(before: map<Key, SharedGate>, out: set<Key>)
    reads before.Values
  {
    && (forall k | k in before :: KeepsHolders(before[k]))
    && (forall k | k in before && k in out :: IsRetired(before[k].state))
    && (forall k | k in before && k !in out :: Untouched(before[k]))
  }

  class LiveRegistry {
    var builtins: map<string, Callback>
    var manifests: seq<Manifest>
    var servers: map<string, seq<Manifest>>
    var gates: map<Key, SharedGate>

    function View(): Registry<SharedGate>
      reads this
    {
      Registry(builtins, manifests, servers, gates)
    }

    ghost predicate Valid()
      reads this, gates.Values
    {
      && (forall k | k in gates :: gates[k].Valid())
      && (forall k, l | k in gates && l in gates && k != l :: gates[k] != gates[l])
    }

    constructor ()
      ensures Valid() && View() == Registry(map[], [], map[], map[])
    {
      builtins, manifests, servers, gates := map[], [], map[], map[];
    }

    /** A clone of the registry: the same gates, not copies of them. */
    method Snapshot() returns (copy: LiveRegistry)
      requires Valid()
      ensures fresh(copy) && copy.Valid() && copy.View() == View()
    {
      copy := new LiveRegistry();
      copy.builtins, copy.manifests, copy.servers, copy.gates := builtins, manifests, servers, gates;
    }

    /** Take the gates of these manifests out, retiring each for every holder of it. */
    method RetireGates(ms: seq<Manifest>)
      requires Valid()
      modifies this`gates, gates.Values
      ensures Valid() && gates == old(gates) - KeySet(ms)
      ensures RetiresOnly(old(gates), KeySet(ms))
    {
      hide KeyOf, IsRetired, FetchOrRetired, Inflight, KeySet, ExecutorGate.Next, ExecutorGate.Inv;
      ghost var before, out := gates, {};
      NoKeys(ms);
      for i := 0 to |ms|
        invariant out == KeySet(ms[..i]) && gates == before - out
        invariant RetiresOnly(before, out)
      {
        var key := KeyOf(ms[i]);
        KeySetStep(ms, i);
        if key in gates {
          gates[key].RetireGate();
          gates := gates - {key};
        }
        out := out + {key};
      }
      assert ms[..|ms|] == ms;
    }

    method RemoveBuiltins(pick: Manifest -> bool)
      requires Valid()
      modifies this, gates.Values
      ensures Valid() && View() == Without(old(View()), pick)
      ensures RetiresOnly(old(gates), KeySet(Select(pick, old(manifests))))
    {
      hide KeyOf, KeySet, NameSet, Select, Reject, IsRetired, ExecutorGate.Inv;
      var removed := Select(pick, manifests);
      RetireGates(removed);
      builtins := builtins - NameSet(removed);
      manifests := Reject(pick, manifests);
    }

    method RemoveBuiltinByName(name: string)
      requires Valid()
      modifies this, gates.Values
      ensures Valid() && View() == Without(old(View()), Named(name))
      ensures RetiresOnly(old(gates), KeySet(Select(Named(name), old(manifests))))
    {
      RemoveBuiltins(Named(name));
    }

    method RemoveBuiltinsBySource(sources: set<Source>)
      requires Valid()
      modifies this, gates.Values
      ensures Valid() && View() == Without(old(View()), FromSource(sources))
      ensures RetiresOnly(old(gates), KeySet(Select(FromSource(sources), old(manifests))))
    {
      RemoveBuiltins(FromSource(sources));
    }

    method RegisterBuiltin(m: Manifest, f: Callback)
      requires Valid()
      modifies this, gates.Values
      ensures Valid() && KeyOf(m) in gates && fresh(gates[KeyOf(m)]) && gates[KeyOf(m)].held == NEW
      ensures View() == WithBuiltin(old(View()), m, f, gates[KeyOf(m)])
      ensures RetiresOnly(old(gates), KeySet(Select(Clashes(m), old(manifests))))
    {
      hide KeyOf, KeySet, NameSet, Select, Reject, Clashes, IsRetired, ExecutorGate.Inv;
      RemoveBuiltins(Clashes(m));
      var gate := new ExecutorInstanceGate();
      gates := gates[KeyOf(m) := gate];
      builtins := builtins[m.name := f];
      manifests := manifests + [m];
    }

    method CommitPreparedRegistration(server: string, ms: seq<Manifest>) returns (ok: bool)
      requires Valid() && Prepared(server, ms)
      modifies this
      ensures Valid() && ok == (server !in old(servers))
      ensures !ok ==> View() == old(View())
      ensures ok ==> exists issued: map<Key, SharedGate> ::
                issued.Keys == KeySet(ms) && View() == WithServer(old(View()), server, ms, issued)
                && forall k | k in issued :: fresh(issued[k]) && issued[k].held == NEW
    {
      hide KeyOf, KeySet, Prepared;
      if server in servers {
        return false;
      }
      var issued := IssueGates(ms);
      gates := gates + issued;
      servers := servers[server := ms];
      ok := true;
    }

    /** A new gate for every manifest. */
    static method IssueGates(ms: seq<Manifest>) returns (issued: map<Key, SharedGate>)
      ensures issued.Keys == KeySet(ms)
      ensures forall k | k in issued :: fresh(issued[k]) && issued[k].Valid() && issued[k].held == NEW
      ensures forall k, l | k in issued && l in issued && k != l :: issued[k] != issued[l]
    {
      hide KeyOf, KeySet, ExecutorGate.Inv;
      issued := map[];
      NoKeys(ms);
      for i := 0 to |ms|
        invariant issued.Keys == KeySet(ms[..i])
        invariant forall k | k in issued :: fresh(issued[k]) && issued[k].Valid() && issued[k].held == NEW
        invariant forall k, l | k in issued && l in issued && k != l :: issued[k] != issued[l]
      {
        KeySetStep(ms, i);
        var gate := new ExecutorInstanceGate();
        issued := issued[KeyOf(ms[i]) := gate];
      }
      assert ms[..|ms|] == ms;
    }

    method Unregister(server: string) returns (ok: bool)
      requires Valid()
      modifies this, gates.Values
      ensures Valid() && ok == (server in old(servers))
      ensures !ok ==> View() == old(View())
      ensures ok ==> View() == WithoutServer(old(View()), server)
      ensures RetiresOnly(old(gates), if ok then KeySet(old(servers)[server]) else {})
    {
      if server !in servers {
        return false;
      }
      RetireGates(servers[server]);
      servers := servers - {server};
      ok := true;
    }

    /** Acquire through this registry or any clone of it, with no one else in the way. */
    method AcquireExecutionInstance(m: Manifest, attempt: AttemptId, lease: LeaseId) returns (r: Option<Acquisition>)
      requires Valid()
      requires KeyOf(m) in gates ==> attempt !in gates[KeyOf(m)].held.attempts && lease !in gates[KeyOf(m)].held.leases
      modifies if KeyOf(m) in gates then {gates[KeyOf(m)]} else {}
      ensures Valid() && (r.None? <==> KeyOf(m) !in gates)
      ensures KeyOf(m) in gates && old(IsRetired(gates[KeyOf(m)].state)) ==> r == Some(InstanceRetired)
      ensures KeyOf(m) in gates && !old(IsRetired(gates[KeyOf(m)].state)) ==>
        |old(gates[KeyOf(m)].held.leases)| < INFLIGHT_MASK ==> r == Some(Acquired(lease))
      ensures r.Some? && r.value.Acquired? ==> lease in gates[KeyOf(m)].held.leases && !IsRetired(gates[KeyOf(m)].state)
    {
      if KeyOf(m) !in gates {
        return None;
      }
      var gate := gates[KeyOf(m)];
      var schedule := [Interference([], false)];
      var acquisition, turns := gate.TryAcquire(attempt, lease, schedule);
      r := Some(acquisition);
    }
  }

  lemma {:induction false} NoKeys(ms: seq<Manifest>)
    ensures KeySet(ms[..0]) == {}
  {
  }

  lemma {:induction false} KeySelected(pick: Manifest -> bool, ms: seq<Manifest>, m: Manifest)
    requires m in ms && pick(m)
    ensures KeyOf(m) in KeySet(Select(pick, ms))
  {
    SelectReject(pick, ms);
  }

  lemma {:induction false} KeySetStep(ms: seq<Manifest>, i: nat)
    requires i < |ms|
    ensures KeySet(ms[..i + 1]) == KeySet(ms[..i]) + {KeyOf(ms[i])}
  {
    assert ms[..i + 1] == ms[..i] + [ms[i]];
  }

  /** Taking over a name or key on the live registry shuts the old instance off in a clone. */
  method ReplaceShutsClone(registry: LiveRegistry, m: Manifest, f: Callback, old': Manifest, attempt: AttemptId, lease: LeaseId)
    returns (r: Option<Acquisition>)
    requires registry.Valid() && old' in registry.manifests && Clashes(m)(old') && KeyOf(old') in registry.gates
    requires forall k | k in registry.gates :: attempt !in registry.gates[k].held.attempts && lease !in registry.gates[k].held.leases
    modifies registry, registry.gates.Values
    ensures r == Some(InstanceRetired)
  {
    KeySelected(Clashes(m), registry.manifests, old');
    hide KeyOf, KeySet, NameSet, Select, Reject, Clashes, IsRetired, ExecutorGate.Inv;
    var clone := registry.Snapshot();
    ghost var gate := registry.gates[KeyOf(old')];
    registry.RegisterBuiltin(m, f);
    assert IsRetired(gate.state);
    r := clone.AcquireExecutionInstance(old', attempt, lease);
  }
}
