/** The tool registry and the gates it shares with its cloned snapshots: replacing or
    removing an instance on the live registry shuts it off in every older snapshot. */
module McpRegistry {

  // ------------------------------------------------------------- manifests

  datatype Source = BuiltIn | Mcp(server: string)

  /** `contract` stands for everything else in a manifest. */
  datatype Manifest = Manifest(id: string, name: string, source: Source, contract: string)

  /** Source, id and name in one string, with NUL between them. */
  type Key = string

  type Callback = nat

  function SourceText(source: Source): string {
    match source
    case BuiltIn => "builtin"
    case Mcp(server) => "mcp:" + server
  }

  function Join(a: string, b: string, c: string): string {
    a + "\0" + b + "\0" + c
  }

  function KeyOf(m: Manifest): Key {
    Join(SourceText(m.source), m.id, m.name)
  }

  function Select(pick: Manifest -> bool, ms: seq<Manifest>): seq<Manifest> {
    if ms == [] then [] else (if pick(ms[0]) then [ms[0]] else []) + Select(pick, ms[1..])
  }

  function Reject(pick: Manifest -> bool, ms: seq<Manifest>): seq<Manifest> {
    if ms == [] then [] else (if pick(ms[0]) then [] else [ms[0]]) + Reject(pick, ms[1..])
  }

  function KeySet(ms: seq<Manifest>): set<Key> {
    set m | m in ms :: KeyOf(m)
  }

  function NameSet(ms: seq<Manifest>): set<string> {
    set m | m in ms :: m.name
  }

  /** A new builtin takes the place of every builtin with its id or its name. */
  function Clashes(m: Manifest): Manifest -> bool {
    (e: Manifest) => e.id == m.id || e.name == m.name
  }

  function Named(name: string): Manifest -> bool {
    (e: Manifest) => e.name == name
  }

  function FromSource(sources: set<Source>): Manifest -> bool {
    (e: Manifest) => e.source in sources
  }

  // -------------------------------------------------------------- registry

  /** `G` is how a registry refers to a gate: clones copy the reference, not the gate. */
  datatype Registry<G> = Registry(
    builtins: map<string, Callback>,
    manifests: seq<Manifest>,
    servers: map<string, seq<Manifest>>,
    gates: map<Key, G>)

  /** What removing these builtin manifests leaves. */
  function Without<G>(r: Registry<G>, pick: Manifest -> bool): Registry<G> {
    var removed := Select(pick, r.manifests);
    r.(builtins := r.builtins - NameSet(removed),
       manifests := Reject(pick, r.manifests),
       gates := r.gates - KeySet(removed))
  }

  function WithBuiltin<G>(r: Registry<G>, m: Manifest, f: Callback, gate: G): Registry<G> {
    var rest := Without(r, Clashes(m));
    rest.(builtins := rest.builtins[m.name := f],
          manifests := rest.manifests + [m],
          gates := rest.gates[KeyOf(m) := gate])
  }

  function WithServer<G>(r: Registry<G>, server: string, ms: seq<Manifest>, issued: map<Key, G>): Registry<G> {
    r.(servers := r.servers[server := ms], gates := r.gates + issued)
  }

  function WithoutServer<G>(r: Registry<G>, server: string): Registry<G>
    requires server in r.servers
  {
    r.(servers := r.servers - {server}, gates := r.gates - KeySet(r.servers[server]))
  }

  /** What preparing a registration has checked of its manifests. */
  predicate Prepared(server: string, ms: seq<Manifest>) {
    && ms != []
    && (forall m | m in ms :: m.source == Mcp(server))
    && (forall i, j | 0 <= i < j < |ms| :: ms[i].name != ms[j].name)
  }

  function ServerKeys(servers: map<string, seq<Manifest>>): set<Key> {
    set s, m | s in servers && m in servers[s] :: KeyOf(m)
  }

  /** All keys of registered manifests. */
  function AllKeys<G>(r: Registry<G>): set<Key> {
    KeySet(r.manifests) + ServerKeys(r.servers)
  }

  ghost predicate Distinct(ms: seq<Manifest>) {
    forall i, j | 0 <= i < j < |ms| :: ms[i].id != ms[j].id && ms[i].name != ms[j].name
  }

  ghost predicate AllBuiltIn(ms: seq<Manifest>) {
    forall m | m in ms :: m.source == BuiltIn
  }

  ghost predicate ServersOk(servers: map<string, seq<Manifest>>) {
    && (forall s, m | s in servers && m in servers[s] :: m.source == Mcp(s))
    && (forall s, t | s in servers && t in servers && s != t :: KeySet(servers[s]) !! KeySet(servers[t]))
  }

  /** No two manifests share a key. */
  ghost predicate KeysApart(ms: seq<Manifest>) {
    forall a, b | a in ms && b in ms && KeyOf(a) == KeyOf(b) :: a == b
  }

  /** Builtins have unique ids, names and keys and a callback each; server manifests carry their
      server's source and share no key with another server's; the gates are those of exactly the
      registered manifests. */
  ghost predicate Ok<G>(r: Registry<G>) {
    && Distinct(r.manifests) && KeysApart(r.manifests)
    && AllBuiltIn(r.manifests)
    && ServersOk(r.servers)
    && r.builtins.Keys == NameSet(r.manifests)
    && r.gates.Keys == AllKeys(r)
  }

  // ------------------------------------------------------------------ keys

  predicate NulFree(s: string) {
    '\0' !in s
  }

  predicate Clean(m: Manifest) {
    NulFree(m.id) && NulFree(m.name) && (m.source.Mcp? ==> NulFree(m.source.server))
  }

  lemma {:induction false} FirstNul(a: string, x: string, b: string, y: string)
    requires NulFree(a) && NulFree(b) && a + "\0" + x == b + "\0" + y
    ensures a == b && x == y
  {
    var s := a + "\0" + x;
    assert s[|a|] == '\0' && s[|b|] == '\0';
    assert forall i | 0 <= i < |a| :: s[i] == a[i] && a[i] in a;
    assert forall i | 0 <= i < |b| :: s[i] == b[i] && b[i] in b;
    assert a == s[..|a|] && b == s[..|b|] && x == s[|a| + 1..] && y == s[|b| + 1..];
  }

  lemma {:induction false} JoinInjective(a: string, b: string, c: string, a': string, b': string, c': string)
    requires NulFree(a) && NulFree(b) && NulFree(a') && NulFree(b') && Join(a, b, c) == Join(a', b', c')
    ensures a == a' && b == b' && c == c'
  {
    hide NulFree;
    assert Join(a, b, c) == a + "\0" + (b + "\0" + c);
    assert Join(a', b', c') == a' + "\0" + (b' + "\0" + c');
    FirstNul(a, b + "\0" + c, a', b' + "\0" + c');
    FirstNul(b, c, b', c');
  }

  lemma {:induction false} SourceTextLaw(s: Source, t: Source)
    ensures SourceText(s) == SourceText(t) ==> s == t
    ensures (s.Mcp? ==> NulFree(s.server)) ==> NulFree(SourceText(s))
  {
    match s {
      case BuiltIn => assert SourceText(s)[0] == 'b';
      case Mcp(server) =>
        assert SourceText(s)[0] == 'm';
        assert SourceText(s)[4..] == server;
    }
    match t {
      case BuiltIn => assert SourceText(t)[0] == 'b';
      case Mcp(server) =>
        assert SourceText(t)[0] == 'm';
        assert SourceText(t)[4..] == server;
    }
  }

  /** Without NUL in ids, names and server names, the key decides source, id and name. */
  lemma {:induction false} KeyDecides(a: Manifest, b: Manifest)
    requires Clean(a) && Clean(b) && KeyOf(a) == KeyOf(b)
    ensures a.source == b.source && a.id == b.id && a.name == b.name
  {
    hide NulFree, Join, SourceText;
    SourceTextLaw(a.source, b.source);
    SourceTextLaw(b.source, a.source);
    JoinInjective(SourceText(a.source), a.id, a.name, SourceText(b.source), b.id, b.name);
  }

  lemma {:induction false} KeyStart(m: Manifest)
    ensures KeyOf(m) != [] && KeyOf(m)[0] == if m.source.BuiltIn? then 'b' else 'm'
  {
    assert SourceText(m.source) != [];
    assert KeyOf(m)[0] == SourceText(m.source)[0];
  }

  /** Two builtins that do not clash and share a key. */
  lemma {:induction false} NulCollides()
    ensures var m1, m2 := Manifest("a\0b", "c", BuiltIn, ""), Manifest("a", "b\0c", BuiltIn, "");
            !Clashes(m1)(m2) && !Clashes(m2)(m1) && KeyOf(m1) == KeyOf(m2)
  {
    var m1, m2 := Manifest("a\0b", "c", BuiltIn, ""), Manifest("a", "b\0c", BuiltIn, "");
    assert m1.id[1] == '\0' && |m2.id| == 1 && |m1.name| == 1 && |m2.name| == 3;
    assert "\0" + m1.id + "\0" + m1.name == "\0" + m2.id + "\0" + m2.name;
    assert KeyOf(m1) == "builtin" + ("\0" + m1.id + "\0" + m1.name);
    assert KeyOf(m2) == "builtin" + ("\0" + m2.id + "\0" + m2.name);
  }

  // ------------------------------------------------- what the steps preserve

  lemma {:induction false} SelectReject(pick: Manifest -> bool, ms: seq<Manifest>)
    ensures forall m :: m in Select(pick, ms) <==> m in ms && pick(m)
    ensures forall m :: m in Reject(pick, ms) <==> m in ms && !pick(m)
  {
    if ms != [] {
      SelectReject(pick, ms[1..]);
      assert ms == [ms[0]] + ms[1..];
    }
  }

  lemma {:induction false} RejectDistinct(pick: Manifest -> bool, ms: seq<Manifest>)
    requires Distinct(ms)
    ensures Distinct(Reject(pick, ms))
  {
    if ms != [] {
      RejectDistinct(pick, ms[1..]);
      SelectReject(pick, ms[1..]);
      var rest := Reject(pick, ms[1..]);
      forall i | 0 <= i < |rest| ensures rest[i].id != ms[0].id && rest[i].name != ms[0].name {
        assert rest[i] in ms[1..];
      }
    }
  }

  lemma {:induction false} NameDecides(ms: seq<Manifest>, a: Manifest, b: Manifest)
    requires Distinct(ms) && a in ms && b in ms && (a.name == b.name || a.id == b.id)
    ensures a == b
  {
  }

  /** Removing manifests removes exactly their names and keys. */
  lemma {:induction false} RejectSets(pick: Manifest -> bool, ms: seq<Manifest>)
    requires Distinct(ms) && KeysApart(ms)
    ensures NameSet(Reject(pick, ms)) == NameSet(ms) - NameSet(Select(pick, ms))
    ensures KeySet(Reject(pick, ms)) == KeySet(ms) - KeySet(Select(pick, ms))
    ensures KeysApart(Reject(pick, ms))
  {
    hide Distinct, KeyOf;
    SelectReject(pick, ms);
    forall a, b | a in ms && b in ms && (a.name == b.name || a.id == b.id) ensures a == b {
      NameDecides(ms, a, b);
    }
  }

  lemma {:induction false} BuiltinsApart(ms: seq<Manifest>, servers: map<string, seq<Manifest>>)
    requires AllBuiltIn(ms) && ServersOk(servers)
    ensures KeySet(ms) !! ServerKeys(servers)
  {
    hide KeyOf;
    forall m | m in ms ensures KeyOf(m) !in ServerKeys(servers) {
      KeyStart(m);
      forall s, e | s in servers && e in servers[s] ensures KeyOf(e) != KeyOf(m) { KeyStart(e); }
    }
  }

  lemma {:induction false} SelectSubset(pick: Manifest -> bool, ms: seq<Manifest>)
    requires AllBuiltIn(ms)
    ensures AllBuiltIn(Select(pick, ms)) && AllBuiltIn(Reject(pick, ms))
  {
    SelectReject(pick, ms);
  }

  lemma {:induction false} WithoutOk<G>(r: Registry<G>, pick: Manifest -> bool)
    requires Ok(r)
    ensures Ok(Without(r, pick))
  {
    hide Distinct, KeysApart, AllBuiltIn, ServersOk, KeySet, NameSet, ServerKeys, Select, Reject, KeyOf;
    RejectDistinct(pick, r.manifests);
    RejectSets(pick, r.manifests);
    SelectSubset(pick, r.manifests);
    BuiltinsApart(Select(pick, r.manifests), r.servers);
    var r' := Without(r, pick);
    assert r'.gates.Keys == AllKeys(r');
  }

  lemma {:induction false} AppendSets(ms: seq<Manifest>, m: Manifest)
    ensures NameSet(ms + [m]) == NameSet(ms) + {m.name} && KeySet(ms + [m]) == KeySet(ms) + {KeyOf(m)}
    ensures AllBuiltIn(ms) && m.source == BuiltIn ==> AllBuiltIn(ms + [m])
    ensures KeysApart(ms) && KeyOf(m) !in KeySet(ms) ==> KeysApart(ms + [m])
  {
    hide KeyOf;
    assert forall e :: e in ms + [m] <==> e in ms || e == m;
  }

  lemma {:induction false} AppendDistinct(m: Manifest, ms: seq<Manifest>)
    requires Distinct(ms)
    ensures Distinct(Reject(Clashes(m), ms) + [m])
  {
    RejectDistinct(Clashes(m), ms);
    SelectReject(Clashes(m), ms);
    var rest := Reject(Clashes(m), ms);
    forall i | 0 <= i < |rest| ensures rest[i].id != m.id && rest[i].name != m.name {
      assert rest[i] in rest;
    }
  }

  /** The key of the new builtin is that of no manifest that stays. */
  predicate KeyIsFree<G>(r: Registry<G>, m: Manifest) {
    KeyOf(m) !in AllKeys(Without(r, Clashes(m)))
  }

  lemma {:induction false} WithBuiltinOk<G>(r: Registry<G>, m: Manifest, f: Callback, gate: G)
    requires Ok(r) && m.source == BuiltIn && KeyIsFree(r, m)
    ensures Ok(WithBuiltin(r, m, f, gate)) && KeyOf(m) !in Without(r, Clashes(m)).gates
  {
    hide Distinct, KeysApart, AllBuiltIn, ServersOk, KeySet, NameSet, ServerKeys, Select, Reject, Clashes, KeyOf;
    WithoutOk(r, Clashes(m));
    var rest := Without(r, Clashes(m));
    AppendSets(rest.manifests, m);
    AppendDistinct(m, r.manifests);
  }

  lemma {:induction false} ServerKeysAdd(servers: map<string, seq<Manifest>>, server: string, ms: seq<Manifest>)
    requires ServersOk(servers) && server !in servers && Prepared(server, ms) && KeySet(ms) !! ServerKeys(servers)
    ensures ServerKeys(servers[server := ms]) == ServerKeys(servers) + KeySet(ms)
    ensures ServersOk(servers[server := ms])
  {
    hide KeyOf;
    var after := servers[server := ms];
    forall k | k in ServerKeys(servers) ensures k in ServerKeys(after) {
      var s, m :| s in servers && m in servers[s] && KeyOf(m) == k;
      assert s in after && m in after[s];
    }
    forall k | k in KeySet(ms) ensures k in ServerKeys(after) {
      var m :| m in ms && KeyOf(m) == k;
      assert server in after && m in after[server];
    }
    forall s | s in servers ensures KeySet(servers[s]) <= ServerKeys(servers) { }
  }

  lemma {:induction false} ServerKeysDrop(servers: map<string, seq<Manifest>>, server: string)
    requires ServersOk(servers) && server in servers
    ensures ServerKeys(servers - {server}) == ServerKeys(servers) - KeySet(servers[server])
    ensures ServersOk(servers - {server})
  {
    hide KeyOf;
    var after := servers - {server};
    forall k | k in ServerKeys(servers) && k !in KeySet(servers[server]) ensures k in ServerKeys(after) {
      var s, m :| s in servers && m in servers[s] && KeyOf(m) == k;
      assert s in after && m in after[s];
    }
    forall k | k in ServerKeys(after) ensures k in ServerKeys(servers) && k !in KeySet(servers[server]) {
      var s, m :| s in after && m in after[s] && KeyOf(m) == k;
      assert s in servers && m in servers[s] && k in KeySet(servers[s]);
    }
  }

  lemma {:induction false} PreparedApart(ms: seq<Manifest>, server: string, other: seq<Manifest>)
    requires AllBuiltIn(ms) && forall m | m in other :: m.source == Mcp(server)
    ensures KeySet(ms) !! KeySet(other)
  {
    hide KeyOf;
    forall a, b | a in ms && b in other ensures KeyOf(a) != KeyOf(b) {
      KeyStart(a);
      KeyStart(b);
    }
  }

  lemma {:induction false} WithServerOk<G>(r: Registry<G>, server: string, ms: seq<Manifest>, issued: map<Key, G>)
    requires Ok(r) && server !in r.servers && Prepared(server, ms) && issued.Keys == KeySet(ms)
    requires KeySet(ms) !! AllKeys(r)
    ensures Ok(WithServer(r, server, ms, issued))
    ensures r.gates.Keys !! issued.Keys
  {
    hide Distinct, KeysApart, AllBuiltIn, ServersOk, KeySet, NameSet, ServerKeys, KeyOf;
    ServerKeysAdd(r.servers, server, ms);
    var r' := WithServer(r, server, ms, issued);
    assert r'.gates.Keys == AllKeys(r');
  }

  lemma {:induction false} WithoutServerOk<G>(r: Registry<G>, server: string)
    requires Ok(r) && server in r.servers
    ensures Ok(WithoutServer(r, server))
  {
    ServerKeysDrop(r.servers, server);
    PreparedApart(r.manifests, server, r.servers[server]);
    hide Distinct, KeysApart, AllBuiltIn, ServersOk, KeySet, NameSet, ServerKeys, KeyOf;
    var r' := WithoutServer(r, server);
    assert r'.gates.Keys == AllKeys(r');
  }

  // ------------------------------------------------------------- the world

  type GateId = nat
  type LeaseId = nat

  /** The live registry, every snapshot cloned from it, and the gates they share. */
  datatype World = World(
    live: Registry<GateId>,
    snapshots: seq<Registry<GateId>>,
    retired: set<GateId>,
    leases: map<LeaseId, GateId>,
    next: GateId)

  const START := World(Registry(map[], [], map[], map[]), [], {}, map[], 0)

  datatype Step =
    | RegisterBuiltin(m: Manifest, f: Callback)
    | RemoveByName(name: string)
    | RemoveBySource(sources: set<Source>)
    | Commit(server: string, ms: seq<Manifest>)
    | Unregister(server: string)
    | Clone
    | Acquire(snapshot: nat, m: Manifest, lease: LeaseId)
    | Release(lease: LeaseId)

  /** What is registered takes no key that a manifest that stays has. */
  predicate TakesNoKey(w: World, step: Step) {
    match step
    case RegisterBuiltin(m, _) => KeyIsFree(w.live, m)
    case Commit(server, ms) => server !in w.live.servers && Prepared(server, ms) ==> KeySet(ms) !! AllKeys(w.live)
    case _ => true
  }

  /** A builtin comes under the builtin source, and no key is taken. */
  predicate Proper(w: World, step: Step) {
    (step.RegisterBuiltin? ==> step.m.source == BuiltIn) && TakesNoKey(w, step)
  }

  /** The gates that a change of the live registry takes out of it. */
  function Displaced(w: World, removed: set<Key>): set<GateId> {
    set k | k in removed && k in w.live.gates :: w.live.gates[k]
  }

  function FreshGates(ms: seq<Manifest>, next: GateId): map<Key, GateId>
  {
    if ms == [] then map[] else FreshGates(ms[..|ms| - 1], next)[KeyOf(ms[|ms| - 1]) := next + |ms| - 1]
  }

  function Remove(w: World, pick: Manifest -> bool): World {
    w.(live := Without(w.live, pick),
       retired := w.retired + Displaced(w, KeySet(Select(pick, w.live.manifests))))
  }

  predicate Acquirable(w: World, r: Registry<GateId>, m: Manifest) {
    KeyOf(m) in r.gates && r.gates[KeyOf(m)] !in w.retired
  }

  function Next(w: World, step: Step): World {
    match step
    case RegisterBuiltin(m, f) =>
      Remove(w, Clashes(m)).(live := WithBuiltin(w.live, m, f, w.next), next := w.next + 1)
    case RemoveByName(name) => Remove(w, Named(name))
    case RemoveBySource(sources) => Remove(w, FromSource(sources))
    case Commit(server, ms) =>
      if server in w.live.servers || !Prepared(server, ms) then w
      else w.(live := WithServer(w.live, server, ms, FreshGates(ms, w.next)), next := w.next + |ms|)
    case Unregister(server) =>
      if server !in w.live.servers then w
      else w.(live := WithoutServer(w.live, server),
              retired := w.retired + Displaced(w, KeySet(w.live.servers[server])))
    case Clone => w.(snapshots := w.snapshots + [w.live])
    case Acquire(i, m, lease) =>
      if i < |w.snapshots| && lease !in w.leases && Acquirable(w, w.snapshots[i], m)
      then w.(leases := w.leases[lease := w.snapshots[i].gates[KeyOf(m)]]) else w
    case Release(lease) => w.(leases := w.leases - {lease})
  }

  function Run(w: World, steps: seq<Step>): World
    decreases |steps|
  {
    if steps == [] then w else Run(Next(w, steps[0]), steps[1..])
  }

  // ---------------------------------------------------------------- safety

  /** Live gates are distinct and open; a snapshot's gate is the live one or is retired. */
  ghost predicate GatesOk(w: World) {
    && (forall k | k in w.live.gates :: w.live.gates[k] < w.next && w.live.gates[k] !in w.retired)
    && (forall k, l | k in w.live.gates && l in w.live.gates && w.live.gates[k] == w.live.gates[l] :: k == l)
  }

  ghost predicate Fresh(w: World, r: Registry<GateId>) {
    forall k | k in r.gates ::
      && r.gates[k] < w.next
      && (r.gates[k] in w.retired || (k in w.live.gates && w.live.gates[k] == r.gates[k]))
  }

  ghost predicate Inv(w: World) {
    && Ok(w.live) && GatesOk(w)
    && (forall i | 0 <= i < |w.snapshots| :: Fresh(w, w.snapshots[i]))
    && (forall g | g in w.retired :: g < w.next)
  }

  lemma {:induction false} FreshGatesLaw(ms: seq<Manifest>, next: GateId)
    ensures var f := FreshGates(ms, next);
            && f.Keys == KeySet(ms)
            && (forall k | k in f :: next <= f[k] < next + |ms|)
            && (forall k, l | k in f && l in f && f[k] == f[l] :: k == l)
  {
    hide KeyOf, KeySet;
    if ms == [] {
      assert KeySet([]) == {} by { KeysOfLast(ms); }
    } else {
      FreshGatesLaw(ms[..|ms| - 1], next);
      KeysOfLast(ms);
    }
  }

  lemma {:induction false} KeysOfLast(ms: seq<Manifest>)
    ensures KeySet([]) == {}
    ensures ms != [] ==> KeySet(ms) == KeySet(ms[..|ms| - 1]) + {KeyOf(ms[|ms| - 1])}
  {
    hide KeyOf;
    if ms != [] {
      assert ms == ms[..|ms| - 1] + [ms[|ms| - 1]];
    }
  }

  /** Every gate of the live registry is still live under its key, or was retired. */
  ghost predicate NoOpenGateLost(w: World, w': World) {
    forall k | k in w.live.gates ::
      w.live.gates[k] in w'.retired || (k in w'.live.gates && w'.live.gates[k] == w.live.gates[k])
  }

  /** A change of the live registry that retires what it takes out keeps every snapshot honest. */
  ghost predicate Shrinks(w: World, w': World) {
    && w'.snapshots == w.snapshots && w.retired <= w'.retired && w.next <= w'.next
    && NoOpenGateLost(w, w')
  }

  lemma {:induction false} ShrinkKeepsFresh(w: World, w': World, r: Registry<GateId>)
    requires Fresh(w, r) && Shrinks(w, w')
    ensures Fresh(w', r)
  {
  }

  lemma {:induction false} RemoveShrinks(w: World, pick: Manifest -> bool)
    requires Inv(w)
    ensures Inv(Remove(w, pick)) && Shrinks(w, Remove(w, pick))
  {
    hide Ok, Fresh, KeySet, NameSet, Select, Reject;
    var w' := Remove(w, pick);
    WithoutOk(w.live, pick);
    RemovedGates(w, KeySet(Select(pick, w.live.manifests)));
    assert Shrinks(w, w');
    forall i | 0 <= i < |w'.snapshots| ensures Fresh(w', w'.snapshots[i]) {
      ShrinkKeepsFresh(w, w', w.snapshots[i]);
    }
  }

  lemma {:induction false} RemovedGates(w: World, removed: set<Key>)
    requires GatesOk(w)
    ensures forall k | k in w.live.gates && k in removed :: w.live.gates[k] in Displaced(w, removed)
    ensures forall k | k in w.live.gates && k !in removed :: w.live.gates[k] !in Displaced(w, removed)
    ensures forall g | g in Displaced(w, removed) :: g < w.next
  {
  }

  lemma {:induction false} StepKeeps(w: World, step: Step)
    requires Inv(w) && Proper(w, step)
    ensures Inv(Next(w, step)) && w.retired <= Next(w, step).retired
  {
    hide Ok, Fresh;
    var w' := Next(w, step);
    match step {
      case RegisterBuiltin(m, f) => RegisterKeeps(w, m, f);
      case RemoveByName(name) => RemoveShrinks(w, Named(name));
      case RemoveBySource(sources) => RemoveShrinks(w, FromSource(sources));
      case Commit(server, ms) => CommitKeeps(w, server, ms);
      case Unregister(server) => UnregisterKeeps(w, server);
      case Clone => CloneKeeps(w);
      case Acquire(_, _, _) => SameGatesKeep(w, w');
      case Release(_) => SameGatesKeep(w, w');
    }
  }

  lemma {:induction false} SameGatesKeep(w: World, w': World)
    requires Inv(w) && w' == w.(leases := w'.leases)
    ensures Inv(w')
  {
    forall i | 0 <= i < |w'.snapshots| ensures Fresh(w', w'.snapshots[i]) {
      assert Fresh(w, w.snapshots[i]);
    }
  }

  lemma {:induction false} CloneKeeps(w: World)
    requires Inv(w)
    ensures Inv(Next(w, Clone))
  {
    var w' := Next(w, Clone);
    forall i | 0 <= i < |w'.snapshots| ensures Fresh(w', w'.snapshots[i]) {
      if i < |w.snapshots| { assert Fresh(w, w.snapshots[i]); }
    }
  }

  lemma {:induction false} RegisterKeeps(w: World, m: Manifest, f: Callback)
    requires Inv(w) && Proper(w, RegisterBuiltin(m, f))
    ensures Inv(Next(w, RegisterBuiltin(m, f))) && Shrinks(w, Next(w, RegisterBuiltin(m, f)))
  {
    hide Ok, Fresh, KeySet, NameSet, Select, Reject, KeyOf, KeyIsFree;
    var w1, w' := Remove(w, Clashes(m)), Next(w, RegisterBuiltin(m, f));
    RemoveShrinks(w, Clashes(m));
    WithBuiltinOk(w.live, m, f, w.next);
    assert Shrinks(w1, w'.(retired := w1.retired));
    forall i | 0 <= i < |w'.snapshots| ensures Fresh(w', w'.snapshots[i]) {
      ShrinkKeepsFresh(w1, w', w1.snapshots[i]);
    }
  }

  lemma {:induction false} CommitKeeps(w: World, server: string, ms: seq<Manifest>)
    requires Inv(w) && Proper(w, Commit(server, ms))
    ensures Inv(Next(w, Commit(server, ms)))
  {
    hide Ok, Fresh, KeySet, FreshGates, AllKeys, KeyOf;
    if server !in w.live.servers && Prepared(server, ms) {
      var w' := Next(w, Commit(server, ms));
      FreshGatesLaw(ms, w.next);
      WithServerOk(w.live, server, ms, FreshGates(ms, w.next));
      assert Shrinks(w, w');
      forall i | 0 <= i < |w'.snapshots| ensures Fresh(w', w'.snapshots[i]) {
        ShrinkKeepsFresh(w, w', w.snapshots[i]);
      }
    }
  }

  lemma {:induction false} UnregisterKeeps(w: World, server: string)
    requires Inv(w)
    ensures Inv(Next(w, Unregister(server)))
  {
    hide Ok, Fresh, KeySet;
    if server in w.live.servers {
      var w' := Next(w, Unregister(server));
      WithoutServerOk(w.live, server);
      RemovedGates(w, KeySet(w.live.servers[server]));
      assert Shrinks(w, w');
      forall i | 0 <= i < |w'.snapshots| ensures Fresh(w', w'.snapshots[i]) {
        ShrinkKeepsFresh(w, w', w.snapshots[i]);
      }
    }
  }

  /** Every step of the run is proper when its turn comes. */
  predicate AllProper(w: World, steps: seq<Step>)
    decreases |steps|
  {
    steps == [] || (Proper(w, steps[0]) && AllProper(Next(w, steps[0]), steps[1..]))
  }

  lemma {:induction false} RunKeeps(w: World, steps: seq<Step>)
    requires Inv(w) && AllProper(w, steps)
    ensures Inv(Run(w, steps)) && w.retired <= Run(w, steps).retired
    decreases |steps|
  {
    hide Inv, Next, Proper;
    if steps != [] {
      StepKeeps(w, steps[0]);
      RunKeeps(Next(w, steps[0]), steps[1..]);
    }
  }

  lemma {:induction false} StartIsClean()
    ensures Inv(START) && CleanWorld(START)
  {
    assert Ok(START.live);
  }

  lemma {:induction false} Reachable(steps: seq<Step>)
    requires AllProper(START, steps)
    ensures Inv(Run(START, steps))
  {
    StartIsClean();
    RunKeeps(START, steps);
  }

  /** A step that brings only manifests without NUL, and builtins under the builtin source. */
  predicate CleanStep(step: Step) {
    match step
    case RegisterBuiltin(m, _) => m.source == BuiltIn && Clean(m)
    case Commit(_, ms) => forall m | m in ms :: Clean(m)
    case _ => true
  }

  ghost predicate CleanWorld(w: World) {
    && (forall m | m in w.live.manifests :: Clean(m))
    && (forall s, m | s in w.live.servers && m in w.live.servers[s] :: Clean(m))
  }

  lemma {:induction false} CleanIsFree(r: Registry<GateId>, m: Manifest)
    requires Ok(r) && m.source == BuiltIn && Clean(m) && forall e | e in r.manifests :: Clean(e)
    ensures KeyIsFree(r, m)
  {
    hide KeyOf, Clean, Select, Reject, Distinct, KeysApart;
    SelectReject(Clashes(m), r.manifests);
    forall e | e in Reject(Clashes(m), r.manifests) ensures KeyOf(e) != KeyOf(m) {
      if KeyOf(e) == KeyOf(m) { KeyDecides(e, m); }
    }
    KeyStart(m);
    forall s, e | s in r.servers && e in r.servers[s] ensures KeyOf(e) != KeyOf(m) { KeyStart(e); }
  }

  lemma {:induction false} CleanIsNew(r: Registry<GateId>, server: string, ms: seq<Manifest>)
    requires Ok(r) && server !in r.servers && Prepared(server, ms) && forall m | m in ms :: Clean(m)
    requires forall s, m | s in r.servers && m in r.servers[s] :: Clean(m)
    ensures KeySet(ms) !! AllKeys(r)
  {
    hide KeyOf, Clean, Distinct, KeysApart;
    PreparedApart(r.manifests, server, ms);
    forall m, s, e | m in ms && s in r.servers && e in r.servers[s] ensures KeyOf(e) != KeyOf(m) {
      if KeyOf(e) == KeyOf(m) { KeyDecides(e, m); }
    }
  }

  lemma {:induction false} CleanStepIsProper(w: World, step: Step)
    requires Inv(w) && CleanWorld(w) && CleanStep(step)
    ensures Proper(w, step) && CleanWorld(Next(w, step))
  {
    hide KeyOf, Clean, Ok, GatesOk, Fresh, KeySet, NameSet, AllKeys, KeyIsFree;
    match step {
      case RegisterBuiltin(m, _) =>
        CleanIsFree(w.live, m);
        SelectReject(Clashes(m), w.live.manifests);
      case RemoveByName(name) => SelectReject(Named(name), w.live.manifests);
      case RemoveBySource(sources) => SelectReject(FromSource(sources), w.live.manifests);
      case Commit(server, ms) => if server !in w.live.servers && Prepared(server, ms) { CleanIsNew(w.live, server, ms); }
      case _ =>
    }
  }

  /** While no id, name or server name contains NUL, every run is proper. */
  lemma {:induction false} CleanRunsAreProper(w: World, steps: seq<Step>)
    requires Inv(w) && CleanWorld(w) && forall s | s in steps :: CleanStep(s)
    ensures AllProper(w, steps)
    decreases |steps|
  {
    hide Inv, CleanWorld, Next, Proper, CleanStep;
    if steps != [] {
      assert steps == [steps[0]] + steps[1..];
      CleanStepIsProper(w, steps[0]);
      StepKeeps(w, steps[0]);
      CleanRunsAreProper(Next(w, steps[0]), steps[1..]);
    }
  }

  /** In every reachable world: ids and names of builtins are unique, each has its callback, and
      the gates are those of exactly the registered manifests. */
  lemma {:induction false} RegistryLaw(steps: seq<Step>)
    requires AllProper(START, steps)
    ensures Ok(Run(START, steps).live)
  {
    hide Run, Ok;
    Reachable(steps);
  }

  /** A snapshot reaches exactly the instance that is live now: an acquire through it succeeds
      if and only if the live registry still has that very gate for the manifest. */
  lemma {:induction false} SnapshotReachesLiveOnly(steps: seq<Step>, i: nat, m: Manifest)
    requires AllProper(START, steps) && i < |Run(START, steps).snapshots|
    ensures var w := Run(START, steps);
            var r := w.snapshots[i];
            Acquirable(w, r, m) <==>
              KeyOf(m) in r.gates && KeyOf(m) in w.live.gates && w.live.gates[KeyOf(m)] == r.gates[KeyOf(m)]
  {
    hide Run, Ok;
    Reachable(steps);
    assert Fresh(Run(START, steps), Run(START, steps).snapshots[i]);
  }

  /** Once a gate has left the live registry, no snapshot acquires it, then or ever after. */
  lemma {:induction false} ReplacedStaysShut(before: seq<Step>, after: seq<Step>, i: nat, m: Manifest)
    requires AllProper(START, before) && AllProper(Run(START, before), after)
    requires var w := Run(START, before);
             i < |w.snapshots| && KeyOf(m) in w.snapshots[i].gates && w.snapshots[i].gates[KeyOf(m)] !in w.live.gates.Values
    ensures var w, w' := Run(START, before), Run(Run(START, before), after);
            i < |w'.snapshots| && w'.snapshots[i] == w.snapshots[i] && !Acquirable(w', w'.snapshots[i], m)
  {
    hide Run, Ok, AllProper;
    Reachable(before);
    var w := Run(START, before);
    assert Fresh(w, w.snapshots[i]);
    RunKeeps(w, after);
    SnapshotsKept(w, after);
  }

  lemma {:induction false} SnapshotsKept(w: World, steps: seq<Step>)
    ensures w.snapshots <= Run(w, steps).snapshots
    decreases |steps|
  {
    hide WithBuiltin, Without, WithServer, WithoutServer, Displaced, Prepared, Acquirable;
    if steps != [] {
      SnapshotsKept(Next(w, steps[0]), steps[1..]);
    }
  }

  /** Leases taken before outlive every change but their own release. */
  lemma {:induction false} LeasesOutlive(w: World, steps: seq<Step>, l: LeaseId)
    requires l in w.leases && Release(l) !in steps
    ensures l in Run(w, steps).leases && Run(w, steps).leases[l] == w.leases[l]
    decreases |steps|
  {
    hide WithBuiltin, Without, WithServer, WithoutServer, Displaced, Prepared, Acquirable;
    if steps != [] {
      LeasesOutlive(Next(w, steps[0]), steps[1..], l);
    }
  }

  /** Registering a builtin puts an open gate out of reach without retiring it if and only if a
      manifest that stays has its key: one of a server, or one with NUL in its id or name. */
  lemma {:induction false} RegisterLeavesGateOpen(w: World, m: Manifest, f: Callback)
    requires Inv(w)
    ensures var w' := Next(w, RegisterBuiltin(m, f));
            !KeyIsFree(w.live, m)
            <==> (KeyOf(m) in w.live.gates && w.live.gates[KeyOf(m)] !in w'.retired
                  && KeyOf(m) in w'.live.gates && w'.live.gates[KeyOf(m)] != w.live.gates[KeyOf(m)])
  {
    hide Distinct, KeysApart, NameSet, Fresh, Select, Reject, KeySet, ServerKeys, AllBuiltIn, ServersOk, KeyOf;
    var removed := Select(Clashes(m), w.live.manifests);
    RemovedGates(w, KeySet(removed));
    WithoutOk(w.live, Clashes(m));
    assert Without(w.live, Clashes(m)).gates.Keys == AllKeys(Without(w.live, Clashes(m)));
  }

  /** A step puts an open gate out of reach without retiring it if and only if what it registers takes
      the key of a manifest that stays: a builtin or the commit of a prepared server. */
  lemma {:induction false} NoKeyTakenNoGateLost(w: World, step: Step)
    requires Inv(w)
    ensures NoOpenGateLost(w, Next(w, step)) <==> TakesNoKey(w, step)
  {
    hide Ok, Fresh, KeySet, Select, Reject, KeyOf, KeyIsFree, AllKeys, Prepared, FreshGates, WithBuiltin;
    match step {
      case RegisterBuiltin(m, f) => RegisterLosesGate(w, m, f);
      case RemoveByName(name) => RemoveShrinks(w, Named(name));
      case RemoveBySource(sources) => RemoveShrinks(w, FromSource(sources));
      case Commit(server, ms) => if server !in w.live.servers && Prepared(server, ms) { CommitLosesGate(w, server, ms); }
      case Unregister(server) => if server in w.live.servers { RemovedGates(w, KeySet(w.live.servers[server])); }
      case _ =>
    }
  }

  lemma {:induction false} RegisterLosesGate(w: World, m: Manifest, f: Callback)
    requires Inv(w)
    ensures NoOpenGateLost(w, Next(w, RegisterBuiltin(m, f))) <==> KeyIsFree(w.live, m)
  {
    hide Ok, Fresh, KeySet, Select, Reject, KeyOf, KeyIsFree;
    var removed := Select(Clashes(m), w.live.manifests);
    RemovedGates(w, KeySet(removed));
    RegisterLeavesGateOpen(w, m, f);
    WithoutGates(w.live, m);
  }

  lemma {:induction false} WithoutGates(r: Registry<GateId>, m: Manifest)
    requires Ok(r)
    ensures KeyIsFree(r, m) <==> KeyOf(m) !in Without(r, Clashes(m)).gates
  {
    hide Distinct, KeysApart, AllBuiltIn, ServersOk, KeySet, NameSet, ServerKeys, Select, Reject, Clashes, KeyOf;
    WithoutOk(r, Clashes(m));
  }

  lemma {:induction false} CommitLosesGate(w: World, server: string, ms: seq<Manifest>)
    requires Inv(w) && server !in w.live.servers && Prepared(server, ms)
    ensures NoOpenGateLost(w, Next(w, Commit(server, ms))) <==> KeySet(ms) !! AllKeys(w.live)
  {
    hide Fresh, KeySet, ServerKeys, KeyOf, FreshGates, Prepared, Distinct, KeysApart, AllBuiltIn, ServersOk, NameSet;
    FreshGatesLaw(ms, w.next);
    var w' := Next(w, Commit(server, ms));
    assert w.live.gates.Keys == AllKeys(w.live);
    forall k | k in KeySet(ms) && k in w.live.gates ensures w'.live.gates[k] != w.live.gates[k] && w.live.gates[k] !in w'.retired {
      assert w'.live.gates[k] == FreshGates(ms, w.next)[k];
    }
  }

  /** Without NUL that never happens to a builtin registered under the builtin source. */
  lemma {:induction false} CleanRegisterRetires(steps: seq<Step>, m: Manifest, f: Callback)
    requires (forall s | s in steps :: CleanStep(s)) && m.source == BuiltIn && Clean(m)
    ensures var w := Run(START, steps);
            NoOpenGateLost(w, Next(w, RegisterBuiltin(m, f)))
  {
    hide Inv, Run, Clean, KeyOf, KeyIsFree, Next;
    StartIsClean();
    CleanRunsAreProper(START, steps);
    RunKeeps(START, steps);
    CleanAfter(START, steps);
    CleanStepIsProper(Run(START, steps), RegisterBuiltin(m, f));
    RegisterKeeps(Run(START, steps), m, f);
  }

  lemma {:induction false} CleanAfter(w: World, steps: seq<Step>)
    requires Inv(w) && CleanWorld(w) && forall s | s in steps :: CleanStep(s)
    ensures CleanWorld(Run(w, steps))
    decreases |steps|
  {
    hide Inv, CleanWorld, Next, Proper, CleanStep;
    if steps != [] {
      assert steps == [steps[0]] + steps[1..];
      CleanStepIsProper(w, steps[0]);
      StepKeeps(w, steps[0]);
      CleanAfter(Next(w, steps[0]), steps[1..]);
    }
  }

  /** With NUL it does: after the first of the two colliding builtins, the second one's key is taken. */
  lemma {:induction false} NulLeavesGateOpen(f: Callback)
    ensures var m1, m2 := Manifest("a\0b", "c", BuiltIn, ""), Manifest("a", "b\0c", BuiltIn, "");
            var w := Run(START, [RegisterBuiltin(m1, f)]);
            Inv(w) && !KeyIsFree(w.live, m2)
  {
    hide KeyOf;
    var m1, m2 := Manifest("a\0b", "c", BuiltIn, ""), Manifest("a", "b\0c", BuiltIn, "");
    NulCollides();
    var first := RegisterBuiltin(m1, f);
    var w := Next(START, first);
    assert [first][1..] == [] && Run(START, [first]) == w;
    StartIsClean();
    assert Proper(START, first);
    StepKeeps(START, first);
    assert w.live.manifests == [m1];
    SelectReject(Clashes(m2), [m1]);
    assert m1 in Reject(Clashes(m2), [m1]);
    assert KeyOf(m1) in KeySet(Reject(Clashes(m2), [m1]));
  }
}
