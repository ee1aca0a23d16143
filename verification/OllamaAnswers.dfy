/** What each arrival does to the request that waits for it: when a request fails, is answered from the
    cache, goes on or completes, and that a completed vector is found again. */
module OllamaAnswers {
  import opened EmbeddingCache
  import opened EmbeddingTypes
  import opened OllamaProtocol
  import opened Wrappers

  ghost predicate Reached(checks: Checks, w: World) {
    exists steps :: w == Run(checks, START, steps)
  }

  /** Nothing has happened to any other request. */
  ghost predicate OthersStay(w: World, w': World, task: TaskId) {
    w'.tasks - {task} == w.tasks - {task} && w'.outcomes - {task} == w.outcomes - {task} && w'.asked == w.asked
  }

  ghost predicate Ended(w: World, w': World, task: TaskId, o: Outcome) {
    OthersStay(w, w', task) && task !in w'.tasks && task in w'.outcomes && w'.outcomes[task] == o
  }

  ghost predicate Waits(w: World, w': World, task: TaskId, p: Phase) {
    OthersStay(w, w', task) && task in w'.tasks && w'.tasks[task] == p && w'.outcomes == w.outcomes
  }

  /** An entry for this request under this identity, in its time. */
  ghost predicate Found(s: Slot, asked: Request, id: Identity, now: nat, ttl: nat) {
    var d := asked.decision;
    && s.key == CacheKey(Ollama, d.provider, d.endpoint, id.model, d.expectedDimension, d.deployment, Some(id.digest), asked.text)
    && now < s.entry.cachedAt + ttl
  }

  ghost predicate Stored(w: World, s: Slot) {
    exists i :: 0 <= i < |w.cache| && w.cache[i] == s
  }

  /** An entry under the identity in its key passes the test for reuse. */
  lemma {:induction false} FoundIsReusable(checks: Checks, log: seq<Evidence>, s: Slot, asked: Request, id: Identity, now: nat)
    requires SlotOk(checks, log, s) && Found(s, asked, id, now, checks.ttl)
    ensures Reusable(s.entry.value, id)
  {
    var i :| 0 <= i < |log| && Bracketed(checks, log[i], s.key, s.entry.value);
  }

  /** The first manifest: without one, or with another artifact than the request names, it fails. If the cache
      has an entry for the request as the manifest resolves it, in its time, that is the answer. Otherwise the
      request goes on to the embedding. */
  lemma {:induction false} ManifestIsAnswered(checks: Checks, w: World, task: TaskId, answer: Observed<Identity>, now: nat)
    requires Reached(checks, w) && task in w.tasks && w.tasks[task].AwaitManifest?
    ensures task in w.asked
    ensures var w' := Next(checks, w, Manifest(task, answer, now));
            var asked := w.asked[task];
            && w'.log == w.log
            && match answer
               case Lost(started) => Ended(w, w', task, Failed(if started then [ManifestDispatch] else []))
               case Seen(id) =>
                 if asked.decision.artifact.Some? && asked.decision.artifact.value != id.digest then
                   Ended(w, w', task, Failed([ManifestDispatch]))
                 else
                   && (forall s | Stored(w, s) && Found(s, asked, id, now, checks.ttl) ::
                         Ended(w, w', task, Completed(s.entry.value.vector, s.entry.value.profile, true, [ManifestDispatch])))
                   && ((forall s | Stored(w, s) :: !Found(s, asked, id, now, checks.ttl)) ==>
                         Waits(w, w', task, AwaitEmbedding(
                           Request(asked.decision.(model := id.model, artifact := Some(id.digest)), asked.text), id, [ManifestDispatch])))
  {
    hide Reached, Inv, ListGet, SlotOk, Distinct, Reusable, OnEmbedding, OnRecheck, Do, SlotsOk, Found, Stored;
    Waiting(checks, w, task);
    if answer.Seen? {
      CacheAnswers(checks, w, w.asked[task], answer.value, now);
    }
  }

  /** The lookup gives an entry for the request, if the cache has one, and that entry passes the test for reuse. */
  lemma {:induction false} CacheAnswers(checks: Checks, w: World, asked: Request, id: Identity, now: nat)
    requires asked.decision.route == Ollama && Distinct(w.cache) && SlotsOk(checks, w)
    ensures var found := ListGet(w.cache, KeyFor(Resolved(asked, id).decision, asked.text), now, checks.ttl).1;
            && (forall s | Stored(w, s) && Found(s, asked, id, now, checks.ttl) :: found == Some(s.entry.value) && Reusable(s.entry.value, id))
            && ((forall s | Stored(w, s) :: !Found(s, asked, id, now, checks.ttl)) ==> found.None?)
  {
    hide ListGet, SlotOk, Distinct, Reusable, SlotsOk;
    GetExactly(w.cache, KeyFor(Resolved(asked, id).decision, asked.text), now, checks.ttl);
    forall s | Stored(w, s) && Found(s, asked, id, now, checks.ttl) ensures Reusable(s.entry.value, id) {
      var i :| 0 <= i < |w.cache| && w.cache[i] == s;
      SlotIsOk(checks, w, i);
      FoundIsReusable(checks, w.log, s, asked, id, now);
    }
    if forall s | Stored(w, s) :: !Found(s, asked, id, now, checks.ttl) {
      forall i | 0 <= i < |w.cache| ensures !Found(w.cache[i], asked, id, now, checks.ttl) { assert Stored(w, w.cache[i]); }
    }
  }

  ghost predicate SlotsOk(checks: Checks, w: World) {
    forall i | 0 <= i < |w.cache| :: SlotOk(checks, w.log, w.cache[i])
  }

  lemma {:induction false} SlotIsOk(checks: Checks, w: World, i: nat)
    requires SlotsOk(checks, w) && i < |w.cache|
    ensures SlotOk(checks, w.log, w.cache[i])
  {
  }

  /** What a waiting request carries with it. */
  lemma {:induction false} Waiting(checks: Checks, w: World, task: TaskId)
    requires Reached(checks, w) && task in w.tasks
    ensures task in w.asked && PhaseOk(w.asked[task], w.tasks[task]) && Distinct(w.cache) && SlotsOk(checks, w)
  {
    hide Reached, SlotOk, OutcomeOk, Distinct, PhaseOk;
    ReachedLaws(checks, w);
  }

  lemma {:induction false} ReachedLaws(checks: Checks, w: World)
    requires Reached(checks, w)
    ensures Inv(checks, w)
  {
    hide Run, Inv;
    var steps :| w == Run(checks, START, steps);
    Reachable(checks, steps);
  }

  /** The vector: without one the request fails, with one it asks for the manifest again. */
  lemma {:induction false} EmbeddingIsAnswered(checks: Checks, w: World, task: TaskId, answer: Observed<Vector>)
    requires Reached(checks, w) && task in w.tasks && w.tasks[task].AwaitEmbedding?
    ensures var w' := Next(checks, w, Embedding(task, answer));
            var p := w.tasks[task];
            && w'.log == w.log && w'.cache == w.cache
            && match answer
               case Lost(started) =>
                 Ended(w, w', task, Failed(if started then [ManifestDispatch, EmbeddingDispatch] else [ManifestDispatch]))
               case Seen(vector) =>
                 Waits(w, w', task, AwaitRecheck(p.req, p.seen, vector, [ManifestDispatch, EmbeddingDispatch]))
  {
    hide Reached, Inv, SlotsOk, OnManifest, OnRecheck, Do;
    Waiting(checks, w, task);
  }

  /** The second manifest: the request completes exactly if it names the same artifact as the first and the
      vector is acceptable. It is answered with that vector and with its own profile; the run is logged, and it
      is the cache's latest entry if its profile is known. Whatever fails writes nothing. */
  lemma {:induction false} RecheckIsAnswered(checks: Checks, w: World, task: TaskId, answer: Observed<Identity>, now: nat)
    requires Reached(checks, w) && task in w.tasks && w.tasks[task].AwaitRecheck?
    ensures task in w.asked
    ensures var w' := Next(checks, w, Recheck(task, answer, now));
            var asked, id, vector := w.asked[task].decision, w.tasks[task].seen, w.tasks[task].vector;
            var decided := asked.(model := id.model, artifact := Some(id.digest));
            var good := 1 <= |vector| <= 32_768 && checks.numeric(vector)
                        && (asked.expectedDimension.Some? ==> asked.expectedDimension.value == |vector|);
            var all := [ManifestDispatch, EmbeddingDispatch, ManifestDispatch];
            if answer == Seen(id) && good then
              var profile := if asked.deployment.None? || !checks.labels(decided) then UnknownProfile
                             else Profile(Ollama, asked.provider, id.model, asked.deployment.value, id.digest, |vector|);
              var slot := Slot(CacheKey(Ollama, asked.provider, asked.endpoint, id.model, asked.expectedDimension, asked.deployment,
                                        Some(id.digest), w.asked[task].text),
                               Entry(Cached(vector, profile, true), now));
              && Ended(w, w', task, Completed(vector, profile, false, all))
              && w'.log == w.log + [Evidence(task, decided, w.asked[task].text, id, id, vector)]
              && (if profile == UnknownProfile then w'.cache == w.cache else w'.cache != [] && w'.cache[|w'.cache| - 1] == slot)
            else
              && Ended(w, w', task, Failed(if answer == Lost(false) then all[..2] else all))
              && w'.log == w.log && w'.cache == w.cache
  {
    hide Reached, Inv, SlotsOk, EvictTo, Without, OnManifest, OnEmbedding, Do;
    Waiting(checks, w, task);
  }

  /** Reuse: as long as the entry that a completed run has made stays in the cache, in its time, every later
      request for the same decision and text that sees the same artifact is answered with it. */
  lemma {:induction false} CompletedIsFoundAgain(checks: Checks, w: World, task: TaskId, now: nat, steps: seq<Step>, task': TaskId, later: nat)
    requires Reached(checks, w) && task in w.tasks && w.tasks[task].AwaitRecheck?
    requires var w1 := Next(checks, w, Recheck(task, Seen(w.tasks[task].seen), now));
             var w2 := Run(checks, w1, steps);
             && task in w1.outcomes && w1.outcomes[task].Completed? && w1.outcomes[task].profile.Profile?
             && w1.cache != [] && Stored(w2, w1.cache[|w1.cache| - 1]) && later < now + checks.ttl
             && task' in w2.tasks && w2.tasks[task'].AwaitManifest? && task in w.asked && task' in w2.asked && w2.asked[task'] == w.asked[task]
    ensures var w1 := Next(checks, w, Recheck(task, Seen(w.tasks[task].seen), now));
            var w2 := Run(checks, w1, steps);
            var o := w1.outcomes[task];
            Ended(w2, Next(checks, w2, Manifest(task', Seen(w.tasks[task].seen), later)), task',
                  Completed(o.vector, o.profile, true, [ManifestDispatch]))
  {
    hide Run, Next, Inv, Stored;
    var id := w.tasks[task].seen;
    var recheck := Recheck(task, Seen(id), now);
    var w1 := Next(checks, w, recheck);
    var w2 := Run(checks, w1, steps);
    RecheckIsAnswered(checks, w, task, Seen(id), now);
    var slot := w1.cache[|w1.cache| - 1];
    StepReached(checks, w, recheck);
    RunReached(checks, w1, steps);
    RequestFits(checks, w, task);
    assert Found(slot, w.asked[task], id, later, checks.ttl);
    ManifestIsAnswered(checks, w2, task', Seen(id), later);
  }

  lemma {:induction false} RequestFits(checks: Checks, w: World, task: TaskId)
    requires Reached(checks, w) && task in w.tasks && w.tasks[task].AwaitRecheck?
    ensures task in w.asked && ArtifactFits(w.asked[task], w.tasks[task].seen)
  {
    hide Reached, Inv;
    Waiting(checks, w, task);
  }

  lemma {:induction false} RunSnoc(checks: Checks, w: World, steps: seq<Step>, step: Step)
    ensures Run(checks, w, steps + [step]) == Next(checks, Run(checks, w, steps), step)
    decreases |steps|
  {
    hide Next;
    if steps == [] {
      var one := [step];
      assert steps + one == one && one[1..] == [];
    } else {
      assert (steps + [step])[1..] == steps[1..] + [step];
      RunSnoc(checks, Next(checks, w, steps[0]), steps[1..], step);
    }
  }

  lemma {:induction false} StepReached(checks: Checks, w: World, step: Step)
    requires Reached(checks, w)
    ensures Reached(checks, Next(checks, w, step))
  {
    hide Run, Next;
    var steps :| w == Run(checks, START, steps);
    RunSnoc(checks, START, steps, step);
  }

  lemma {:induction false} RunReached(checks: Checks, w: World, steps: seq<Step>)
    requires Reached(checks, w)
    ensures Reached(checks, Run(checks, w, steps))
    decreases |steps|
  {
    hide Next;
    if steps != [] {
      StepReached(checks, w, steps[0]);
      RunReached(checks, Next(checks, w, steps[0]), steps[1..]);
    }
  }
}
