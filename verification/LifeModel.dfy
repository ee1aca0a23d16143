/** The life model and batches of patches on it, with their three ways to fail. */
module LifeModel {
  import opened Wrappers
  import opened JsonPointer
  import opened LifePatch

  /** How a model of type M is written as JSON, read back, and validated. */
  datatype Codec<!M> = Codec(write: M -> Option<Json>, read: Json -> Option<M>, valid: M -> bool)

  /** A patch succeeds, yields an unsuccessful result, or is refused with an error. */
  datatype Applied = Success | Unsuccessful(failure: Error) | Rejected(refusal: Error)

  /** What one patch makes of a model. */
  function Patched<M>(codec: Codec<M>, model: M, p: Patch): (Applied, M) {
    var written := codec.write(model);
    if written.None? then (Rejected(Serialization), model)
    else
      match Edit(written.value, p)
      case Refused(e) => (Rejected(e), model)
      case Failed(e) => (Unsuccessful(e), model)
      case Changed(value) =>
        var read := codec.read(value);
        if read.None? then (Rejected(Serialization), model)
        else if !codec.valid(read.value) then (Unsuccessful(ValidationFailed), model)
        else (Success, read.value)
  }

  predicate Works<M>(codec: Codec<M>, model: M, p: Patch) {
    Patched(codec, model, p).0.Success?
  }

  /** What a patch reports and leaves: the JSON form edited and read back, if that is a valid model;
      otherwise the model as it was. */
  lemma {:induction false} OnePatch<M>(codec: Codec<M>, model: M, p: Patch)
    ensures var (applied, after) := Patched(codec, model, p);
      if applied.Success? then
        && codec.valid(after)
        && codec.write(model).Some? && Edit(codec.write(model).value, p).Changed?
        && codec.read(Edit(codec.write(model).value, p).value) == Some(after)
      else after == model
  {
  }

  // --------------------------------------------------------------- batches

  datatype FailureMode = Atomic | Partial | Adaptive

  /** Whether a patch that fails takes the batch back. */
  predicate Fatal(mode: FailureMode, p: Patch) {
    mode == Atomic || (mode == Adaptive && p.critical)
  }

  /** The patches that succeed when those that fail are passed over. */
  function Survivors<M>(codec: Codec<M>, model: M, todo: seq<Patch>): seq<Patch>
    decreases |todo|
  {
    if todo == [] then []
    else if Works(codec, model, todo[0]) then
      [todo[0]] + Survivors(codec, Patched(codec, model, todo[0]).1, todo[1..])
    else Survivors(codec, model, todo[1..])
  }

  /** The patches passed over. */
  function Failures<M>(codec: Codec<M>, model: M, todo: seq<Patch>): seq<Patch>
    decreases |todo|
  {
    if todo == [] then []
    else if Works(codec, model, todo[0]) then Failures(codec, Patched(codec, model, todo[0]).1, todo[1..])
    else [todo[0]] + Failures(codec, model, todo[1..])
  }

  /** The patches one after the other, each on the result of the last. */
  function Fold<M>(codec: Codec<M>, model: M, patches: seq<Patch>): M
    decreases |patches|
  {
    if patches == [] then model else Fold(codec, Patched(codec, model, patches[0]).1, patches[1..])
  }

  /** Every patch succeeds in its turn. */
  predicate AllWork<M>(codec: Codec<M>, model: M, patches: seq<Patch>)
    decreases |patches|
  {
    patches == []
    || (Works(codec, model, patches[0]) && AllWork(codec, Patched(codec, model, patches[0]).1, patches[1..]))
  }

  /** A patch whose failure takes the batch back is reached, and fails. */
  predicate FatalFailure<M>(codec: Codec<M>, model: M, mode: FailureMode, todo: seq<Patch>)
    decreases |todo|
  {
    todo != []
    && ((Fatal(mode, todo[0]) && !Works(codec, model, todo[0]))
        || FatalFailure(codec, Patched(codec, model, todo[0]).1, mode, todo[1..]))
  }

  function Ids(patches: seq<Patch>): (ids: seq<string>)
    ensures |ids| == |patches| && forall i | 0 <= i < |patches| :: ids[i] == patches[i].id
  {
    seq(|patches|, i requires 0 <= i < |patches| => patches[i].id)
  }

  /** The patches that were accepted and not rejected. */
  function Chosen(patches: seq<Patch>, accepted: seq<string>, rejected: seq<string>): seq<Patch> {
    if patches == [] then []
    else
      (if patches[0].id in accepted && patches[0].id !in rejected then [patches[0]] else [])
      + Chosen(patches[1..], accepted, rejected)
  }

  /** The rejected ids that are not reported yet join the skipped ones. */
  function WithRejected(skipped: seq<string>, applied: seq<string>, rejected: seq<string>): seq<string> {
    if rejected == [] then skipped
    else
      var before := WithRejected(skipped, applied, rejected[..|rejected| - 1]);
      var id := rejected[|rejected| - 1];
      if id in before || id in applied then before else before + [id]
  }

  /** Every rejected id ends up reported, and nothing but rejected ids is added. */
  lemma {:induction false} RejectedAreReported(skipped: seq<string>, applied: seq<string>, rejected: seq<string>)
    ensures skipped <= WithRejected(skipped, applied, rejected)
    ensures forall id :: id in WithRejected(skipped, applied, rejected) || id in applied
                    <==> id in skipped || id in applied || id in rejected
  {
    if rejected != [] {
      var n := |rejected| - 1;
      RejectedAreReported(skipped, applied, rejected[..n]);
      assert rejected == rejected[..n] + [rejected[n]];
    }
  }

  /** Every patch of the batch is applied or passed over, once each. */
  lemma {:induction false} NonePassesUnnoticed<M>(codec: Codec<M>, model: M, todo: seq<Patch>)
    ensures multiset(Survivors(codec, model, todo)) + multiset(Failures(codec, model, todo)) == multiset(todo)
    decreases |todo|
  {
    hide Works, Patched;
    if todo != [] {
      NonePassesUnnoticed(codec, Patched(codec, model, todo[0]).1, todo[1..]);
      assert todo == [todo[0]] + todo[1..];
      if !Works(codec, model, todo[0]) {
        FailureKeepsModel(codec, model, todo[0]);
      }
    }
  }

  lemma {:induction false} SurvivorsWork<M>(codec: Codec<M>, model: M, todo: seq<Patch>)
    ensures AllWork(codec, model, Survivors(codec, model, todo))
    ensures Fold(codec, model, Survivors(codec, model, todo)) == Fold(codec, model, todo)
    decreases |todo|
  {
    hide Works, Patched;
    if todo != [] {
      var after := Patched(codec, model, todo[0]).1;
      SurvivorsWork(codec, after, todo[1..]);
      if Works(codec, model, todo[0]) {
        var rest := Survivors(codec, after, todo[1..]);
        assert ([todo[0]] + rest)[1..] == rest;
      } else {
        FailureKeepsModel(codec, model, todo[0]);
      }
    }
  }

  lemma {:induction false} FailureKeepsModel<M>(codec: Codec<M>, model: M, p: Patch)
    requires !Works(codec, model, p)
    ensures Patched(codec, model, p).1 == model
  {
  }

  /** With Atomic, nothing is taken back exactly if every patch of the batch succeeds. */
  lemma {:induction false} AtomicAppliesAll<M>(codec: Codec<M>, model: M, todo: seq<Patch>)
    ensures !FatalFailure(codec, model, Atomic, todo) <==> Survivors(codec, model, todo) == todo
    ensures !FatalFailure(codec, model, Atomic, todo) <==> AllWork(codec, model, todo)
    ensures |Survivors(codec, model, todo)| <= |todo|
    decreases |todo|
  {
    hide Works, Patched;
    if todo != [] {
      var after := Patched(codec, model, todo[0]).1;
      AtomicAppliesAll(codec, after, todo[1..]);
      var rest := Survivors(codec, after, todo[1..]);
      assert todo == [todo[0]] + todo[1..];
      assert ([todo[0]] + rest)[1..] == rest;
      if !Works(codec, model, todo[0]) {
        FailureKeepsModel(codec, model, todo[0]);
      }
    }
  }

  /** With Partial, nothing is ever taken back. */
  lemma {:induction false} PartialNeverRollsBack<M>(codec: Codec<M>, model: M, todo: seq<Patch>)
    ensures !FatalFailure(codec, model, Partial, todo)
    decreases |todo|
  {
    if todo != [] {
      PartialNeverRollsBack(codec, Patched(codec, model, todo[0]).1, todo[1..]);
    }
  }

  /** Patches keep a valid model valid, and make one valid as soon as one succeeds. */
  lemma {:induction false} FoldKeepsValid<M>(codec: Codec<M>, model: M, patches: seq<Patch>)
    requires AllWork(codec, model, patches) && (codec.valid(model) || patches != [])
    ensures codec.valid(Fold(codec, model, patches))
    decreases |patches|
  {
    hide Edit;
    if patches != [] {
      FoldKeepsValid(codec, Patched(codec, model, patches[0]).1, patches[1..]);
    }
  }

  lemma {:induction false} FoldConcat<M>(codec: Codec<M>, model: M, a: seq<Patch>, b: seq<Patch>)
    ensures Fold(codec, model, a + b) == Fold(codec, Fold(codec, model, a), b)
    ensures Survivors(codec, model, a + b) == Survivors(codec, model, a) + Survivors(codec, Fold(codec, model, a), b)
    ensures Failures(codec, model, a + b) == Failures(codec, model, a) + Failures(codec, Fold(codec, model, a), b)
    ensures FatalFailureAny(codec, model, a, b)
    decreases |a|
  {
    hide Works, Patched;
    if a == [] {
      assert a + b == b;
    } else {
      assert (a + b)[0] == a[0] && (a + b)[1..] == a[1..] + b;
      FoldConcat(codec, Patched(codec, model, a[0]).1, a[1..], b);
      if !Works(codec, model, a[0]) {
        FailureKeepsModel(codec, model, a[0]);
      }
    }
  }

  /** A batch fails for good in its first part, or after it. */
  ghost predicate FatalFailureAny<M>(codec: Codec<M>, model: M, a: seq<Patch>, b: seq<Patch>) {
    forall mode | mode in [Atomic, Partial, Adaptive] ::
      FatalFailure(codec, model, mode, a + b)
      == (FatalFailure(codec, model, mode, a) || FatalFailure(codec, Fold(codec, model, a), mode, b))
  }

  /** The batch stopped at patch `n`, the first fatal failure, and reports what came before it. */
  ghost predicate StoppedAt<M>(codec: Codec<M>, model: M, mode: FailureMode, todo: seq<Patch>, n: nat,
                               applied: seq<string>, skipped: seq<string>, error: Option<Error>) {
    && n < |todo| && !FatalFailure(codec, model, mode, todo[..n]) && Fatal(mode, todo[n])
    && applied == Ids(Survivors(codec, model, todo[..n])) && skipped == Ids(Failures(codec, model, todo[..n]))
    && match Patched(codec, Fold(codec, model, todo[..n]), todo[n]).0
       case Success => false
       case Unsuccessful(e) => error == Some(e)
       case Rejected(e) => error == Some(e)
  }

  class LifeModel<M> {
    var model: M
    const codec: Codec<M>

    constructor (model: M, codec: Codec<M>)
      ensures this.model == model && this.codec == codec
    {
      this.model := model;
      this.codec := codec;
    }

    method ApplyPatch(p: Patch) returns (applied: Applied)
      modifies this
      ensures (applied, model) == Patched(codec, old(model), p)
    {
      hide Edit;
      var written := codec.write(model);
      if written.None? { return Rejected(Serialization); }
      var edited := PerformEdit(written.value, p);
      match edited {
        case Refused(e) => return Rejected(e);
        case Failed(e) => return Unsuccessful(e);
        case Changed(value) =>
          var read := codec.read(value);
          if read.None? { return Rejected(Serialization); }
          if !codec.valid(read.value) { return Unsuccessful(ValidationFailed); }
          model := read.value;
          return Success;
      }
    }

    /** The batch: conflict resolution, which may accept and reject any ids, and then the patches
        chosen in order. If a fatal failure is reached the model is the original; otherwise it is the
        fold of exactly the patches reported as applied. */
    method ApplyPatches(patches: seq<Patch>, mode: FailureMode, accepted: seq<string>, rejected: seq<string>)
      returns (applied: seq<string>, skipped: seq<string>, rolledBack: bool, error: Option<Error>)
      modifies this
      ensures var todo := Chosen(patches, accepted, rejected);
        && rolledBack == FatalFailure(codec, old(model), mode, todo)
        && rolledBack == error.Some?
        && (rolledBack ==> model == old(model))
        && (!rolledBack ==>
              && applied == Ids(Survivors(codec, old(model), todo))
              && skipped == WithRejected(Ids(Failures(codec, old(model), todo)), applied, rejected)
              && model == Fold(codec, old(model), Survivors(codec, old(model), todo)))
      ensures rolledBack ==> exists n: nat ::
                StoppedAt(codec, old(model), mode, Chosen(patches, accepted, rejected), n, applied, skipped, error)
    {
      hide Patched, Works, Fold, Survivors, Failures, FatalFailure, Ids, Chosen;
      var checkpoint := model;
      ghost var original := model;
      applied, skipped, rolledBack, error := [], [], false, None;
      var todo := Chosen(patches, accepted, rejected);
      BatchStart(codec, original, todo, mode);
      for i := 0 to |todo|
        invariant model == Fold(codec, original, todo[..i])
        invariant applied == Ids(Survivors(codec, original, todo[..i]))
        invariant skipped == Ids(Failures(codec, original, todo[..i]))
        invariant !FatalFailure(codec, original, mode, todo[..i])
      {
        BatchStep(codec, original, todo, i, mode);
        var result := ApplyPatch(todo[i]);
        if result.Success? {
          applied := applied + [todo[i].id];
        } else if Fatal(mode, todo[i]) {
          model := checkpoint;
          BatchFails(codec, original, todo, i, mode);
          rolledBack := true;
          error := Some(if result.Unsuccessful? then result.failure else result.refusal);
          assert StoppedAt(codec, original, mode, todo, i, applied, skipped, error);
          return;
        } else {
          skipped := skipped + [todo[i].id];
        }
      }
      assert todo[..|todo|] == todo;
      SurvivorsWork(codec, original, todo);
      ghost var passed := skipped;
      for i := 0 to |rejected|
        invariant skipped == WithRejected(passed, applied, rejected[..i])
      {
        assert rejected[..i + 1][..i] == rejected[..i];
        if rejected[i] !in skipped && rejected[i] !in applied {
          skipped := skipped + [rejected[i]];
        }
      }
      assert rejected[..|rejected|] == rejected;
    }
  }

  lemma {:induction false} BatchStart<M>(codec: Codec<M>, model: M, todo: seq<Patch>, mode: FailureMode)
    ensures todo[..0] == [] && Fold(codec, model, []) == model
    ensures Ids(Survivors(codec, model, [])) == [] && Ids(Failures(codec, model, [])) == [] && !FatalFailure(codec, model, mode, [])
  {
  }

  lemma {:induction false} IdsConcat(a: seq<Patch>, b: seq<Patch>)
    ensures Ids(a + b) == Ids(a) + Ids(b)
  {
  }

  lemma {:induction false} OneStep<M>(codec: Codec<M>, now: M, p: Patch, mode: FailureMode)
    ensures Fold(codec, now, [p]) == Patched(codec, now, p).1
    ensures FatalFailure(codec, now, mode, [p]) == (Fatal(mode, p) && !Works(codec, now, p))
    ensures Ids(Survivors(codec, now, [p])) == if Works(codec, now, p) then [p.id] else []
    ensures Ids(Failures(codec, now, [p])) == if Works(codec, now, p) then [] else [p.id]
  {
    hide Patched, Works;
    assert [p][1..] == [];
  }

  lemma {:induction false} BatchStep<M>(codec: Codec<M>, model: M, todo: seq<Patch>, i: nat, mode: FailureMode)
    requires i < |todo|
    ensures var now := Fold(codec, model, todo[..i]);
      && Works(codec, now, todo[i]) == Patched(codec, now, todo[i]).0.Success?
      && Fold(codec, model, todo[..i + 1]) == Patched(codec, now, todo[i]).1
      && Ids(Survivors(codec, model, todo[..i + 1]))
      == Ids(Survivors(codec, model, todo[..i])) + (if Works(codec, now, todo[i]) then [todo[i].id] else [])
      && Ids(Failures(codec, model, todo[..i + 1]))
      == Ids(Failures(codec, model, todo[..i])) + (if Works(codec, now, todo[i]) then [] else [todo[i].id])
      && FatalFailure(codec, model, mode, todo[..i + 1])
      == (FatalFailure(codec, model, mode, todo[..i]) || (Fatal(mode, todo[i]) && !Works(codec, now, todo[i])))
  {
    hide Patched, Fold, Survivors, Failures, FatalFailure, Ids, Fatal;
    var p := [todo[i]];
    var now := Fold(codec, model, todo[..i]);
    assert todo[..i + 1] == todo[..i] + p;
    FoldConcat(codec, model, todo[..i], p);
    OneStep(codec, now, todo[i], mode);
    IdsConcat(Survivors(codec, model, todo[..i]), Survivors(codec, now, p));
    IdsConcat(Failures(codec, model, todo[..i]), Failures(codec, now, p));
    assert mode in [Atomic, Partial, Adaptive];
  }

  lemma {:induction false} BatchFails<M>(codec: Codec<M>, model: M, todo: seq<Patch>, i: nat, mode: FailureMode)
    requires i < |todo| && FatalFailure(codec, model, mode, todo[..i + 1])
    ensures FatalFailure(codec, model, mode, todo)
  {
    assert todo == todo[..i + 1] + todo[i + 1..];
    FoldConcat(codec, model, todo[..i + 1], todo[i + 1..]);
    assert mode in [Atomic, Partial, Adaptive];
  }

  /** What a batch leaves, in one place: the original if it was taken back; otherwise the patches that
      succeeded, in order, each on the result of the last, all of them if the mode is Atomic; and a
      model that was valid is valid. */
  lemma {:induction false} BatchLaw<M>(codec: Codec<M>, model: M, mode: FailureMode, todo: seq<Patch>)
    ensures var kept := Survivors(codec, model, todo);
      && AllWork(codec, model, kept)
      && (codec.valid(model) || kept != [] ==> codec.valid(Fold(codec, model, kept)))
      && (mode == Atomic ==> (FatalFailure(codec, model, mode, todo) <==> kept != todo))
      && (mode == Partial ==> !FatalFailure(codec, model, mode, todo))
  {
    hide AllWork, FatalFailure, Survivors, Fold;
    var kept := Survivors(codec, model, todo);
    SurvivorsWork(codec, model, todo);
    if codec.valid(model) || kept != [] {
      FoldKeepsValid(codec, model, kept);
    }
    AtomicAppliesAll(codec, model, todo);
    PartialNeverRollsBack(codec, model, todo);
  }
}
