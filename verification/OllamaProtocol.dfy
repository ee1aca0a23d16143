/** The Ollama embedding protocol: manifest, embedding, manifest again, with any number of
    requests interleaved at every await, one shared cache, and a server that may change its
    model artifact at any moment. */
module OllamaProtocol {
  import opened EmbeddingCache
  import opened EmbeddingTypes
  import opened Wrappers

  /** What the server's manifest says of a model. */
  datatype Identity = Identity(model: string, digest: string)

  datatype Request = Request(decision: Decision, text: string)

  datatype Dispatch = ManifestDispatch | EmbeddingDispatch

  /** Where a request waits, with what it has seen and sent so far. */
  datatype Phase =
    | AwaitManifest(req: Request)
    | AwaitEmbedding(req: Request, seen: Identity, sent: seq<Dispatch>)
    | AwaitRecheck(req: Request, seen: Identity, vector: Vector, sent: seq<Dispatch>)

  datatype Outcome =
    | Failed(sent: seq<Dispatch>)
    | Completed(vector: Vector, profile: Profile, cacheHit: bool, sent: seq<Dispatch>)

  /** A provider run that got past its second manifest, with the request it was made for. */
  datatype Evidence = Evidence(task: TaskId, decision: Decision, text: string, before: Identity, after: Identity, vector: Vector)

  type TaskId = nat

  datatype World = World(
    cache: seq<Slot>,
    tasks: map<TaskId, Phase>,
    outcomes: map<TaskId, Outcome>,
    log: seq<Evidence>,
    asked: map<TaskId, Request>)

  const START := World([], map[], map[], [], map[])

  /** Label syntax and the numeric soundness of a vector are left open. */
  datatype Checks = Checks(labels: Decision -> bool, numeric: Vector -> bool, max: nat, ttl: nat)

  /** What the server, or the lack of it, brings. `started` says that the request went out. */
  datatype Observed<T> = Seen(value: T) | Lost(started: bool)

  datatype Step =
    | Start(task: TaskId, req: Request)
    | Manifest(task: TaskId, answer: Observed<Identity>, now: nat)
    | Embedding(task: TaskId, vector: Observed<Vector>)
    | Recheck(task: TaskId, again: Observed<Identity>, now: nat)
    | OtherRoute(op: Op)
    | ClearCache

  // ------------------------------------------------------------- functions

  function Lower(c: char): char {
    if 'A' <= c <= 'Z' then 'a' + (c - 'A') else c
  }

  predicate EqIgnoreCase(a: string, b: string) {
    |a| == |b| && forall i | 0 <= i < |a| :: Lower(a[i]) == Lower(b[i])
  }

  function ProfileFor(checks: Checks, d: Decision, dimension: nat): Profile {
    if d.deployment.None? || d.artifact.None? || d.route == UnknownRoute || !checks.labels(d)
       || dimension == 0 || dimension > MAX_DIMENSION then UnknownProfile
    else Profile(d.route, d.provider, d.model, d.deployment.value, d.artifact.value, dimension)
  }

  predicate VectorOk(checks: Checks, vector: Vector, expected: Option<nat>) {
    vector != [] && |vector| <= MAX_DIMENSION && (expected.None? || expected.value == |vector|) && checks.numeric(vector)
  }

  function Sent(started: bool, before: seq<Dispatch>, d: Dispatch): seq<Dispatch> {
    if started then before + [d] else before
  }

  /** The request with the identity the manifest resolved it to. */
  function Resolved(req: Request, id: Identity): Request {
    req.(decision := req.decision.(model := id.model, artifact := Some(id.digest)))
  }

  predicate Reusable(c: Cached, id: Identity) {
    && c.stabilityVerified && c.profile.Profile? && c.profile.route == Ollama
    && EqIgnoreCase(c.profile.model, id.model) && c.profile.artifact == id.digest
  }

  function End(w: World, task: TaskId, outcome: Outcome): World {
    w.(tasks := w.tasks - {task}, outcomes := w.outcomes[task := outcome])
  }

  function OnManifest(checks: Checks, w: World, task: TaskId, req: Request, answer: Observed<Identity>, now: nat): World {
    match answer
    case Lost(started) => End(w, task, Failed(Sent(started, [], ManifestDispatch)))
    case Seen(id) =>
      var sent := [ManifestDispatch];
      if req.decision.artifact.Some? && req.decision.artifact.value != id.digest then End(w, task, Failed(sent))
      else
        var resolved := Resolved(req, id);
        var (cache, found) := ListGet(w.cache, KeyFor(resolved.decision, req.text), now, checks.ttl);
        var w' := w.(cache := cache);
        if found.Some? && Reusable(found.value, id)
        then End(w', task, Completed(found.value.vector, found.value.profile, true, sent))
        else w'.(tasks := w.tasks[task := AwaitEmbedding(resolved, id, sent)])
  }

  function OnEmbedding(w: World, task: TaskId, p: Phase, answer: Observed<Vector>): World
    requires p.AwaitEmbedding?
  {
    match answer
    case Lost(started) => End(w, task, Failed(Sent(started, p.sent, EmbeddingDispatch)))
    case Seen(vector) => w.(tasks := w.tasks[task := AwaitRecheck(p.req, p.seen, vector, p.sent + [EmbeddingDispatch])])
  }

  function OnRecheck(checks: Checks, w: World, task: TaskId, p: Phase, answer: Observed<Identity>, now: nat): World
    requires p.AwaitRecheck?
  {
    match answer
    case Lost(started) => End(w, task, Failed(Sent(started, p.sent, ManifestDispatch)))
    case Seen(id) =>
      var sent := p.sent + [ManifestDispatch];
      if id != p.seen || !VectorOk(checks, p.vector, p.req.decision.expectedDimension) then End(w, task, Failed(sent))
      else
        var profile := ProfileFor(checks, p.req.decision, |p.vector|);
        var cache := if profile.Profile?
          then ListPut(w.cache, KeyFor(p.req.decision, p.req.text), Cached(p.vector, profile, true), now, checks.max)
          else w.cache;
        End(w.(cache := cache, log := w.log + [Evidence(task, p.req.decision, p.req.text, p.seen, id, p.vector)]),
            task, Completed(p.vector, profile, false, sent))
  }

  /** What the other routes may do to the shared cache: use their own keys, unverified, with
      a known profile of the vector's length. */
  predicate OtherRouteOp(op: Op) {
    && op.key.route != Ollama
    && (op.Put? ==> !op.value.stabilityVerified && op.value.profile.Profile? && op.value.profile.dimension == |op.value.vector|)
  }

  function Next(checks: Checks, w: World, step: Step): World {
    match step
    case Start(task, req) =>
      if task in w.tasks || task in w.outcomes || req.decision.route != Ollama then w
      else w.(tasks := w.tasks[task := AwaitManifest(req)], asked := w.asked[task := req])
    case Manifest(task, answer, now) =>
      if task in w.tasks && w.tasks[task].AwaitManifest? then OnManifest(checks, w, task, w.tasks[task].req, answer, now) else w
    case Embedding(task, answer) =>
      if task in w.tasks && w.tasks[task].AwaitEmbedding? then OnEmbedding(w, task, w.tasks[task], answer) else w
    case Recheck(task, answer, now) =>
      if task in w.tasks && w.tasks[task].AwaitRecheck? then OnRecheck(checks, w, task, w.tasks[task], answer, now) else w
    case OtherRoute(op) => if OtherRouteOp(op) then w.(cache := Do(w.cache, op, checks.max, checks.ttl)) else w
    case ClearCache => w.(cache := [])
  }

  function Run(checks: Checks, w: World, steps: seq<Step>): World
    decreases |steps|
  {
    if steps == [] then w else Run(checks, Next(checks, w, steps[0]), steps[1..])
  }

  // ---------------------------------------------------------------- safety

  /** What a run completed with passed every check: equal observations around it, and a vector of
      acceptable numbers, of a size within the limit and as expected. */
  ghost predicate Checked(checks: Checks, e: Evidence) {
    && e.before == e.after && e.decision.route == Ollama
    && 1 <= |e.vector| <= 32_768 && checks.numeric(e.vector)
    && (e.decision.expectedDimension.Some? ==> e.decision.expectedDimension.value == |e.vector|)
  }

  /** The profile names the request's provider and deployment, the model and digest observed, and the size of
      the vector; without a deployment or with unusable labels it is not known. */
  ghost predicate Described(checks: Checks, profile: Profile, e: Evidence) {
    if e.decision.deployment.Some? && checks.labels(e.decision)
    then profile == Profile(Ollama, e.decision.provider, e.before.model, e.decision.deployment.value, e.before.digest, |e.vector|)
    else profile == UnknownProfile
  }

  /** A run of the log that stands behind a cached vector: bracketed by two equal
      observations that name the model and the digest in the key. */
  ghost predicate Bracketed(checks: Checks, e: Evidence, key: CacheKey, c: Cached) {
    && key == KeyFor(e.decision, e.text) && e.vector == c.vector
    && Checked(checks, e) && Described(checks, c.profile, e)
    && key.model == e.before.model && key.artifact == Some(e.before.digest)
  }

  ghost predicate SlotOk(checks: Checks, log: seq<Evidence>, s: Slot) {
    var c := s.entry.value;
    && c.profile.Profile? && c.profile.dimension == |c.vector|
    && (s.key.route == Ollama <==> c.stabilityVerified)
    && (c.stabilityVerified ==> exists i :: 0 <= i < |log| && Bracketed(checks, log[i], s.key, c))
  }

  /** A request goes on with what it was asked for, under the identity it has seen. */
  ghost predicate PhaseOk(asked: Request, p: Phase) {
    && asked.decision.route == Ollama
    && (p.AwaitManifest? ==> p.req == asked)
    && (!p.AwaitManifest? ==> p.req == Resolved(asked, p.seen) && ArtifactFits(asked, p.seen))
    && (p.AwaitEmbedding? ==> p.sent == [ManifestDispatch])
    && (p.AwaitRecheck? ==> p.sent == [ManifestDispatch, EmbeddingDispatch])
  }

  /** A request that names an artifact gets no other. */
  predicate ArtifactFits(asked: Request, id: Identity) {
    asked.decision.artifact.Some? ==> asked.decision.artifact.value == id.digest
  }

  /** The run of the log that a completed request has its vector and its profile from: for the same text and
      decision, bracketed by two equal observations, and its own unless the vector came from the cache. */
  ghost predicate Backs(checks: Checks, e: Evidence, task: TaskId, asked: Request, o: Outcome)
    requires o.Completed?
  {
    && e.vector == o.vector && Checked(checks, e) && Described(checks, o.profile, e) && ArtifactFits(asked, e.before)
    && e.text == asked.text && e.decision == Resolved(asked, e.before).decision
    && (!o.cacheHit ==> e.task == task)
  }

  /** What a finished request was told, backed by the log. */
  ghost predicate OutcomeOk(checks: Checks, log: seq<Evidence>, task: TaskId, asked: Request, o: Outcome) {
    o.Completed? ==>
      && (if o.cacheHit then o.sent == [ManifestDispatch] else o.sent == [ManifestDispatch, EmbeddingDispatch, ManifestDispatch])
      && exists i :: 0 <= i < |log| && Backs(checks, log[i], task, asked, o)
  }

  ghost predicate Inv(checks: Checks, w: World) {
    && Distinct(w.cache)
    && w.tasks.Keys + w.outcomes.Keys <= w.asked.Keys
    && (forall i | 0 <= i < |w.cache| :: SlotOk(checks, w.log, w.cache[i]))
    && (forall t | t in w.tasks :: PhaseOk(w.asked[t], w.tasks[t]))
    && (forall t | t in w.outcomes :: OutcomeOk(checks, w.log, t, w.asked[t], w.outcomes[t]))
  }

  lemma {:induction false} MoreEvidence(checks: Checks, log: seq<Evidence>, e: Evidence, s: Slot)
    requires SlotOk(checks, log, s)
    ensures SlotOk(checks, log + [e], s)
  {
    if s.entry.value.stabilityVerified {
      var i :| 0 <= i < |log| && Bracketed(checks, log[i], s.key, s.entry.value);
      assert (log + [e])[i] == log[i];
    }
  }

  lemma {:induction false} MoreEvidenceForOutcome(checks: Checks, log: seq<Evidence>, e: Evidence, task: TaskId, asked: Request, o: Outcome)
    requires OutcomeOk(checks, log, task, asked, o)
    ensures OutcomeOk(checks, log + [e], task, asked, o)
  {
    hide Backs;
    if o.Completed? {
      var i :| 0 <= i < |log| && Backs(checks, log[i], task, asked, o);
      assert (log + [e])[i] == log[i];
    }
  }

  /** A lookup only ever keeps slots; a put adds one of its own. */
  lemma {:induction false} GetKeepsSlots(list: seq<Slot>, key: CacheKey, now: nat, ttl: nat)
    requires Distinct(list)
    ensures var (list', found) := ListGet(list, key, now, ttl);
            && Distinct(list')
            && (forall i | 0 <= i < |list'| :: list'[i] in list)
            && (found.Some? ==> exists i :: 0 <= i < |list| && list[i].key == key && list[i].entry.value == found.value)
  {
    hide Without, Lookup;
    WithoutLaw(list, key);
    LookupLaw(list, key);
    if Lookup(list, key).Some? {
      var i :| 0 <= i < |list| && list[i].key == key;
      assert list[i] == Slot(key, Lookup(list, key).value);
      AddDistinct(Without(list, key), list[i]);
    }
  }

  lemma {:induction false} PutKeepsSlots(list: seq<Slot>, key: CacheKey, value: Cached, now: nat, max: nat)
    requires Distinct(list)
    ensures var list' := ListPut(list, key, value, now, max);
            && Distinct(list')
            && (forall i | 0 <= i < |list'| :: list'[i] in list || list'[i] == Slot(key, Entry(value, now)))
  {
    hide Without, EvictTo;
    var w := Without(list, key);
    WithoutLaw(list, key);
    var d := EvictSuffix(w, |list|, max);
    assert forall i | 0 <= i < |w[d..]| :: w[d..][i] == w[d + i];
    AddDistinct(EvictTo(w, |list|, max), Slot(key, Entry(value, now)));
  }

  lemma {:induction false} EvictSuffix(list: seq<Slot>, count: nat, max: nat) returns (d: nat)
    requires count >= |list|
    ensures d <= |list| && EvictTo(list, count, max) == list[d..]
  {
    if count >= max && list != [] {
      var rest := list[1..];
      d := EvictSuffix(rest, count - 1, max);
      assert rest[d..] == list[1 + d..];
      d := 1 + d;
    } else {
      d := 0;
    }
  }

  lemma {:induction false} ManifestKeeps(checks: Checks, w: World, task: TaskId, req: Request, answer: Observed<Identity>, now: nat)
    requires Inv(checks, w) && task in w.tasks && req == w.tasks[task].req && w.tasks[task].AwaitManifest?
    ensures Inv(checks, OnManifest(checks, w, task, req, answer, now))
  {
    hide ListGet, KeyFor, Distinct, SlotOk, OutcomeOk, Reusable;
    var w' := OnManifest(checks, w, task, req, answer, now);
    if answer.Seen? {
      var key := KeyFor(Resolved(req, answer.value).decision, req.text);
      GetKeepsSlots(w.cache, key, now, checks.ttl);
      var cache := ListGet(w.cache, key, now, checks.ttl).0;
      forall i | 0 <= i < |cache| ensures SlotOk(checks, w.log, cache[i]) {
        var j :| 0 <= j < |w.cache| && w.cache[j] == cache[i];
      }
    }
    if task !in w'.tasks {
      if w'.outcomes[task].Completed? {
        HitOk(checks, w, task, answer.value, now);
      } else {
        FailedOk(checks, w.log, task, req, w'.outcomes[task]);
      }
    }
  }

  /** A hit is an entry for the request as the manifest has just resolved it. */
  lemma {:induction false} HitOk(checks: Checks, w: World, task: TaskId, id: Identity, now: nat)
    requires Inv(checks, w) && task in w.tasks && w.tasks[task].AwaitManifest?
    requires var w' := OnManifest(checks, w, task, w.tasks[task].req, Seen(id), now);
             task in w'.outcomes && task !in w'.tasks && w'.outcomes[task].Completed?
    ensures var w' := OnManifest(checks, w, task, w.tasks[task].req, Seen(id), now);
            && OutcomeOk(checks, w.log, task, w.asked[task], w'.outcomes[task])
            && exists i :: 0 <= i < |w.log| && Backs(checks, w.log[i], task, w.asked[task], w'.outcomes[task]) && w.log[i].before == id
  {
    hide ListGet, Distinct, SlotOk, OutcomeOk;
    var req := w.tasks[task].req;
    var key := KeyFor(Resolved(req, id).decision, req.text);
    GetKeepsSlots(w.cache, key, now, checks.ttl);
    var found := ListGet(w.cache, key, now, checks.ttl).1;
    var s :| 0 <= s < |w.cache| && w.cache[s].key == key && w.cache[s].entry.value == found.value;
    HitIsBracketed(checks, w.log, w.cache[s], task, req, id);
  }

  lemma {:induction false} HitIsBracketed(checks: Checks, log: seq<Evidence>, s: Slot, task: TaskId, req: Request, id: Identity)
    requires SlotOk(checks, log, s) && s.entry.value.stabilityVerified
    requires s.key == KeyFor(Resolved(req, id).decision, req.text) && ArtifactFits(req, id)
    ensures var o := Completed(s.entry.value.vector, s.entry.value.profile, true, [ManifestDispatch]);
            && OutcomeOk(checks, log, task, req, o)
            && exists i :: 0 <= i < |log| && Backs(checks, log[i], task, req, o) && log[i].before == id
  {
    var o := Completed(s.entry.value.vector, s.entry.value.profile, true, [ManifestDispatch]);
    var i :| 0 <= i < |log| && Bracketed(checks, log[i], s.key, s.entry.value);
    assert log[i].before == id && Backs(checks, log[i], task, req, o);
  }

  lemma {:induction false} RecheckKeeps(checks: Checks, w: World, task: TaskId, p: Phase, answer: Observed<Identity>, now: nat)
    requires Inv(checks, w) && task in w.tasks && p == w.tasks[task] && p.AwaitRecheck?
    ensures Inv(checks, OnRecheck(checks, w, task, p, answer, now))
  {
    hide ListPut, Distinct, SlotOk, OutcomeOk, VectorOk, Resolved, ArtifactFits, ProfileFor;
    var w' := OnRecheck(checks, w, task, p, answer, now);
    if w'.log != w.log {
      var e := w'.log[|w.log|];
      assert w'.log == w.log + [e];
      var profile := ProfileFor(checks, p.req.decision, |p.vector|);
      var key, value := KeyFor(p.req.decision, p.req.text), Cached(p.vector, profile, true);
      PutKeepsSlots(w.cache, key, value, now, checks.max);
      forall s | s in w.cache ensures SlotOk(checks, w'.log, s) {
        var j :| 0 <= j < |w.cache| && w.cache[j] == s;
        MoreEvidence(checks, w.log, e, s);
      }
      assert w'.log[|w'.log| - 1] == e && e.after == p.seen && PhaseOk(w.asked[task], p);
      if profile.Profile? { NewSlotOk(checks, w'.log, task, w.asked[task], p, now); }
      forall t | t in w.outcomes ensures OutcomeOk(checks, w'.log, t, w.asked[t], w.outcomes[t]) {
        MoreEvidenceForOutcome(checks, w.log, e, t, w.asked[t], w.outcomes[t]);
      }
      CompletedOk(checks, w'.log, task, w.asked[task], p, w'.outcomes[task]);
    } else {
      FailedOk(checks, w'.log, task, w.asked[task], w'.outcomes[task]);
    }
  }

  lemma {:induction false} FailedOk(checks: Checks, log: seq<Evidence>, task: TaskId, asked: Request, o: Outcome)
    requires o.Failed?
    ensures OutcomeOk(checks, log, task, asked, o)
  {
  }

  lemma {:induction false} CompletedOk(checks: Checks, log: seq<Evidence>, task: TaskId, asked: Request, p: Phase, o: Outcome)
    requires p.AwaitRecheck? && PhaseOk(asked, p) && o.Completed? && !o.cacheHit && o.vector == p.vector
    requires VectorOk(checks, p.vector, p.req.decision.expectedDimension) && o.profile == ProfileFor(checks, p.req.decision, |p.vector|)
    requires o.sent == [ManifestDispatch, EmbeddingDispatch, ManifestDispatch]
    requires log != [] && log[|log| - 1] == Evidence(task, p.req.decision, p.req.text, p.seen, p.seen, p.vector)
    ensures OutcomeOk(checks, log, task, asked, o)
  {
    assert Backs(checks, log[|log| - 1], task, asked, o);
  }

  lemma {:induction false} NewSlotOk(checks: Checks, log: seq<Evidence>, task: TaskId, asked: Request, p: Phase, now: nat)
    requires p.AwaitRecheck? && PhaseOk(asked, p) && ProfileFor(checks, p.req.decision, |p.vector|).Profile?
    requires VectorOk(checks, p.vector, p.req.decision.expectedDimension)
    requires log != [] && log[|log| - 1] == Evidence(task, p.req.decision, p.req.text, p.seen, p.seen, p.vector)
    ensures SlotOk(checks, log, Slot(KeyFor(p.req.decision, p.req.text),
                             Entry(Cached(p.vector, ProfileFor(checks, p.req.decision, |p.vector|), true), now)))
  {
    assert Bracketed(checks, log[|log| - 1], KeyFor(p.req.decision, p.req.text), Cached(p.vector, ProfileFor(checks, p.req.decision, |p.vector|), true));
  }

  lemma {:induction false} OtherRouteKeeps(checks: Checks, w: World, op: Op)
    requires Inv(checks, w) && OtherRouteOp(op)
    ensures Inv(checks, Next(checks, w, OtherRoute(op)))
  {
    hide ListGet, ListPut, Distinct, SlotOk;
    var list := Do(w.cache, op, checks.max, checks.ttl);
    match op {
      case Get(key, now) => GetKeepsSlots(w.cache, key, now, checks.ttl);
      case Put(key, value, now) => PutKeepsSlots(w.cache, key, value, now, checks.max);
    }
    forall i | 0 <= i < |list| ensures SlotOk(checks, w.log, list[i]) {
      if list[i] in w.cache {
        var j :| 0 <= j < |w.cache| && w.cache[j] == list[i];
      } else {
        OtherSlotOk(checks, w.log, op);
      }
    }
  }

  lemma {:induction false} OtherSlotOk(checks: Checks, log: seq<Evidence>, op: Op)
    requires op.Put? && OtherRouteOp(op)
    ensures SlotOk(checks, log, Slot(op.key, Entry(op.value, op.now)))
  {
  }

  lemma {:induction false} StepKeeps(checks: Checks, w: World, step: Step)
    requires Inv(checks, w)
    ensures Inv(checks, Next(checks, w, step))
  {
    hide SlotOk, OutcomeOk, OnManifest, OnRecheck, Do;
    match step {
      case Manifest(task, answer, now) =>
        if task in w.tasks && w.tasks[task].AwaitManifest? { ManifestKeeps(checks, w, task, w.tasks[task].req, answer, now); }
      case Recheck(task, answer, now) =>
        if task in w.tasks && w.tasks[task].AwaitRecheck? { RecheckKeeps(checks, w, task, w.tasks[task], answer, now); }
      case Embedding(task, answer) =>
        if task in w.tasks && w.tasks[task].AwaitEmbedding? && answer.Lost? {
          FailedOk(checks, w.log, task, w.asked[task], Next(checks, w, step).outcomes[task]);
        }
      case OtherRoute(op) => if OtherRouteOp(op) { OtherRouteKeeps(checks, w, op); }
      case _ =>
    }
  }

  lemma {:induction false} RunKeeps(checks: Checks, w: World, steps: seq<Step>)
    requires Inv(checks, w)
    ensures Inv(checks, Run(checks, w, steps))
    decreases |steps|
  {
    hide Inv, Next;
    if steps != [] {
      StepKeeps(checks, w, steps[0]);
      RunKeeps(checks, Next(checks, w, steps[0]), steps[1..]);
    }
  }

  lemma {:induction false} Reachable(checks: Checks, steps: seq<Step>)
    ensures Inv(checks, Run(checks, START, steps))
  {
    hide Run;
    RunKeeps(checks, START, steps);
  }

  // ---------------------------------------------------------- main results

  /** In every run, however requests interleave and the server changes: each Ollama entry of
      the cache was produced by a run between two equal manifest observations naming the
      model and digest in its key, and every entry is as long as its profile says. */
  lemma {:induction false} SandwichLaw(checks: Checks, steps: seq<Step>, i: nat)
    requires i < |Run(checks, START, steps).cache|
    ensures var w := Run(checks, START, steps);
            SlotOk(checks, w.log, w.cache[i])
  {
    hide Run, SlotOk;
    Reachable(checks, steps);
  }

  /** A hit is given out only for what was just observed: it is the vector that an earlier run
      completed for the same text and the same decision, under that very model and digest. */
  lemma {:induction false} HitLaw(checks: Checks, steps: seq<Step>, task: TaskId, id: Identity, now: nat)
    requires var w := Run(checks, START, steps);
             && task in w.tasks && w.tasks[task].AwaitManifest? && task !in w.outcomes
             && var w' := Next(checks, w, Manifest(task, Seen(id), now));
                task in w'.outcomes && w'.outcomes[task].Completed?
    ensures var w := Run(checks, START, steps);
            var o := Next(checks, w, Manifest(task, Seen(id), now)).outcomes[task];
            && task in w.asked
            && (exists i :: 0 <= i < |w.log|
                 && w.log[i].vector == o.vector && w.log[i].before == w.log[i].after == id
                 && w.log[i].text == w.asked[task].text && w.log[i].decision == Resolved(w.asked[task], id).decision)
  {
    hide Run, ListGet, OnRecheck, OnEmbedding, Do, OutcomeOk, SlotOk, Resolved;
    Reachable(checks, steps);
    HitOk(checks, Run(checks, START, steps), task, id, now);
  }

  /** A step that fails its request writes nothing: every slot was there before. */
  lemma {:induction false} FailureWritesNothing(checks: Checks, steps: seq<Step>, step: Step, task: TaskId)
    requires var w := Run(checks, START, steps);
             task !in w.outcomes && task in Next(checks, w, step).outcomes && Next(checks, w, step).outcomes[task].Failed?
    ensures var w := Run(checks, START, steps);
            && Next(checks, w, step).log == w.log
            && forall i | 0 <= i < |Next(checks, w, step).cache| :: Next(checks, w, step).cache[i] in w.cache
  {
    hide Run, ListGet, ListPut, Do, Inv, VectorOk;
    var w := Run(checks, START, steps);
    var w' := Next(checks, w, step);
    assert w'.cache == w.cache;
  }

  /** A completed request sent one manifest request for a hit and the whole sandwich otherwise. Its vector
      is that of a run for its own text and decision, bracketed by equal observations of the artifact
      it asked for, if it named one; the run is its own unless it was answered from the cache. */
  lemma {:induction false} CompletionLaw(checks: Checks, steps: seq<Step>, task: TaskId)
    requires var w := Run(checks, START, steps); task in w.outcomes && w.outcomes[task].Completed?
    ensures var w := Run(checks, START, steps);
            var o := w.outcomes[task];
            && task in w.asked
            && (if o.cacheHit then o.sent == [ManifestDispatch] else o.sent == [ManifestDispatch, EmbeddingDispatch, ManifestDispatch])
            && exists i :: 0 <= i < |w.log| && Backs(checks, w.log[i], task, w.asked[task], o)
  {
    hide Run, SlotOk, Backs;
    Reachable(checks, steps);
  }

  /** What a request is asked for is what it was started with, for good. */
  lemma {:induction false} AskedForGood(checks: Checks, w: World, task: TaskId, req: Request, steps: seq<Step>)
    requires task !in w.tasks && task !in w.outcomes && req.decision.route == Ollama
    ensures var w' := Run(checks, Next(checks, w, Start(task, req)), steps);
            task in w'.asked && w'.asked[task] == req
  {
    hide Run;
    AskedKept(checks, Next(checks, w, Start(task, req)), task, steps);
  }

  lemma {:induction false} AskedKept(checks: Checks, w: World, task: TaskId, steps: seq<Step>)
    requires task in w.asked && (task in w.tasks || task in w.outcomes)
    ensures var w' := Run(checks, w, steps);
            task in w'.asked && w'.asked[task] == w.asked[task]
    decreases |steps|
  {
    hide Next;
    if steps != [] {
      AskedOnce(checks, w, steps[0], task);
      AskedKept(checks, Next(checks, w, steps[0]), task, steps[1..]);
    }
  }

  lemma {:induction false} AskedOnce(checks: Checks, w: World, step: Step, task: TaskId)
    requires task in w.asked && (task in w.tasks || task in w.outcomes)
    ensures var w' := Next(checks, w, step);
            task in w'.asked && w'.asked[task] == w.asked[task] && (task in w'.tasks || task in w'.outcomes)
  {
    hide ListGet, ListPut, Do, VectorOk, ProfileFor, Resolved, Reusable, KeyFor;
  }

  // ------------------------------------------------------------ the object

  /** The executor between awaits: each method is what one request does before it waits again. */
  class OllamaExecutor {
    const checks: Checks
    const cache: Cache
    var tasks: map<TaskId, Phase>
    var outcomes: map<TaskId, Outcome>
    ghost var log: seq<Evidence>
    ghost var asked: map<TaskId, Request>

    ghost predicate Valid()
      reads this, cache
    {
      cache.Valid() && cache.maxSize == checks.max && cache.ttl == checks.ttl
    }

    ghost function View(): World
      reads this, cache
      requires Valid()
    {
      World(cache.List(), tasks, outcomes, log, asked)
    }

    constructor (checks: Checks)
      ensures Valid() && View() == START && this.checks == checks && fresh(cache)
    {
      this.checks := checks;
      cache := new Cache(checks.max, checks.ttl);
      tasks, outcomes, log, asked := map[], map[], [], map[];
    }

    method Begin(task: TaskId, req: Request)
      requires Valid()
      modifies this
      ensures Valid() && View() == Next(checks, old(View()), Start(task, req))
    {
      if task in tasks || task in outcomes || req.decision.route != Ollama {
        return;
      }
      tasks, asked := tasks[task := AwaitManifest(req)], asked[task := req];
    }

    method Finish(task: TaskId, outcome: Outcome)
      modifies this`tasks, this`outcomes
      ensures tasks == old(tasks) - {task} && outcomes == old(outcomes)[task := outcome]
    {
      tasks := tasks - {task};
      outcomes := outcomes[task := outcome];
    }

    method ManifestArrived(task: TaskId, answer: Observed<Identity>, now: nat)
      requires Valid()
      modifies this, cache
      ensures Valid() && View() == Next(checks, old(View()), Manifest(task, answer, now))
    {
      hide ListGet, Reusable;
      if task !in tasks || !tasks[task].AwaitManifest? {
        return;
      }
      var req := tasks[task].req;
      if answer.Lost? {
        Finish(task, Failed(Sent(answer.started, [], ManifestDispatch)));
        return;
      }
      var id, sent := answer.value, [ManifestDispatch];
      if req.decision.artifact.Some? && req.decision.artifact.value != id.digest {
        Finish(task, Failed(sent));
        return;
      }
      var decision := req.decision.(model := id.model, artifact := Some(id.digest));
      var found := cache.Get(KeyFor(decision, req.text), now);
      if found.Some? && Reusable(found.value, id) {
        Finish(task, Completed(found.value.vector, found.value.profile, true, sent));
        return;
      }
      tasks := tasks[task := AwaitEmbedding(req.(decision := decision), id, sent)];
    }

    method EmbeddingArrived(task: TaskId, answer: Observed<Vector>)
      requires Valid()
      modifies this
      ensures Valid() && View() == Next(checks, old(View()), Embedding(task, answer))
    {
      if task !in tasks || !tasks[task].AwaitEmbedding? {
        return;
      }
      var p := tasks[task];
      match answer {
        case Lost(started) => Finish(task, Failed(Sent(started, p.sent, EmbeddingDispatch)));
        case Seen(vector) => tasks := tasks[task := AwaitRecheck(p.req, p.seen, vector, p.sent + [EmbeddingDispatch])];
      }
    }

    method RecheckArrived(task: TaskId, answer: Observed<Identity>, now: nat)
      requires Valid()
      modifies this, cache
      ensures Valid() && View() == Next(checks, old(View()), Recheck(task, answer, now))
    {
      hide ListPut, VectorOk, ProfileFor;
      if task !in tasks || !tasks[task].AwaitRecheck? {
        return;
      }
      var p := tasks[task];
      if answer.Lost? {
        Finish(task, Failed(Sent(answer.started, p.sent, ManifestDispatch)));
        return;
      }
      var sent := p.sent + [ManifestDispatch];
      if answer.value != p.seen || !VectorOk(checks, p.vector, p.req.decision.expectedDimension) {
        Finish(task, Failed(sent));
        return;
      }
      var profile := ProfileFor(checks, p.req.decision, |p.vector|);
      if profile.Profile? {
        cache.Put(KeyFor(p.req.decision, p.req.text), Cached(p.vector, profile, true), now);
      }
      log := log + [Evidence(task, p.req.decision, p.req.text, p.seen, answer.value, p.vector)];
      Finish(task, Completed(p.vector, profile, false, sent));
    }
  }
}
