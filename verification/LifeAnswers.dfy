/** When a patch is refused, fails or succeeds, in terms of the document and the patch alone, and which
    patches of a batch are tried, applied, passed over or fatal. */
module LifeAnswers {
  import opened Wrappers
  import opened JsonPointer
  import opened LifePatch
  import opened LifeModel

  /** The value at the patch's path. */
  function Target(v: Json, p: Patch): Option<Json> {
    match Tokens(p.pointer)
    case None => None
    case Some(tokens) => Get(v, tokens)
  }

  /** The value that holds it. */
  ghost predicate HeldBy(v: Json, p: Patch, parent: Json) {
    Tokens(p.pointer).Some? && Tokens(p.pointer).value != []
    && var tokens := Tokens(p.pointer).value;
       Get(v, tokens[..|tokens| - 1]) == Some(parent)
  }

  /** A patch whose path does not resolve, or whose expected value is not the one there, is refused before
      anything is edited. */
  lemma {:induction false} StaleIsRefused(v: Json, p: Patch)
    ensures Target(v, p).None? ==> Edit(v, p) == Refused(InvalidPath)
    ensures Target(v, p).Some? && p.before.Some? && p.before.value != Target(v, p).value
            ==> Edit(v, p) == Refused(BeforeMismatch(Target(v, p).value))
  {
  }

  /** An edit of a resolved path with the expected value: what each operation asks of the value there, of the
      value that holds it and of the path's last segment, and the error if it is not so. */
  lemma {:induction false} CurrentIsEdited(v: Json, p: Patch, parent: Json)
    requires Target(v, p).Some? && (p.before.Some? ==> p.before == Target(v, p))
    requires |Split(p.pointer)| > 2 && HeldBy(v, p, parent)
    ensures var key := Split(p.pointer)[|Split(p.pointer)| - 1];
            match p.op
            case Merge =>
              if !Target(v, p).value.Obj? then Edit(v, p) == Failed(InvalidOperation(MergeNeedsObjectTarget))
              else if !p.after.Obj? then Edit(v, p) == Failed(InvalidOperation(MergeNeedsObjectValue))
              else Edit(v, p).Changed?
            case Append => if parent.Arr? then Edit(v, p).Changed? else Edit(v, p) == Failed(InvalidOperation(AppendNeedsArrayParent))
            case Insert =>
              if key == [] then Edit(v, p) == Refused(InvalidPath)
              else if parent.Arr? then Edit(v, p).Changed? else Edit(v, p) == Failed(InvalidOperation(InsertNeedsArrayParent))
            case _ => if key == [] then Edit(v, p) == Refused(InvalidPath) else Edit(v, p).Changed?
  {
    hide Split, Unescape, Put, ParseUsize, Child;
    ParentHolds(v, p.pointer);
    ParentTokens(p.pointer);
    assert Up(p.pointer) == Tokens(p.pointer).value[..|Tokens(p.pointer).value| - 1];
  }

  /** The same for a path of one segment or none, which is taken for the whole document: only Replace and Merge
      can be meant, and Replace makes the new value the document. */
  lemma {:induction false} RootIsEdited(v: Json, p: Patch)
    requires Target(v, p).Some? && (p.before.Some? ==> p.before == Target(v, p)) && |Split(p.pointer)| <= 2
    ensures match p.op
            case Replace => Edit(v, p) == Changed(p.after)
            case Merge =>
              if !Target(v, p).value.Obj? then Edit(v, p) == Failed(InvalidOperation(MergeNeedsObjectTarget))
              else if !p.after.Obj? then Edit(v, p) == Failed(InvalidOperation(MergeNeedsObjectValue))
              else Edit(v, p).Changed?
            case Append => Edit(v, p) == Failed(InvalidOperation(AppendNeedsArrayPath))
            case Insert => Edit(v, p) == Failed(InvalidOperation(InsertNeedsArrayPath))
            case Delete => Edit(v, p) == Failed(InvalidOperation(CannotDeleteRoot))
  {
    hide Split, Unescape, Put;
  }

  /** Merge leaves every path alone that parts from the one merged into. */
  lemma {:induction false} MergeElsewhere(v: Json, p: Patch, other: seq<string>)
    requires p.op == Merge && Edit(v, p).Changed? && Disjoint(Tokens(p.pointer).value, other)
    ensures Get(Edit(v, p).value, other) == Get(v, other)
  {
    hide Split, Unescape, Put;
    PutElsewhere(v, Tokens(p.pointer).value, Obj(Target(v, p).value.fields + p.after.fields), other);
  }

  // ------------------------------------------------------------ one patch

  /** A patch succeeds exactly if the model can be written, the edit of that document succeeds, the result can be
      read back, and what is read is valid; it then is the model. Otherwise the model stays, and the report is
      the first of these to fail. */
  lemma {:induction false} PatchIsAnswered<M>(codec: Codec<M>, model: M, p: Patch)
    ensures match codec.write(model)
            case None => Patched(codec, model, p) == (Rejected(Serialization), model)
            case Some(v) =>
              match Edit(v, p)
              case Refused(e) => Patched(codec, model, p) == (Rejected(e), model)
              case Failed(e) => Patched(codec, model, p) == (Unsuccessful(e), model)
              case Changed(v') =>
                match codec.read(v')
                case None => Patched(codec, model, p) == (Rejected(Serialization), model)
                case Some(next) =>
                  if codec.valid(next) then Patched(codec, model, p) == (Success, next)
                  else Patched(codec, model, p) == (Unsuccessful(ValidationFailed), model)
  {
  }

  /** A patch written for another value than the model has at its path is rejected with the value that is there,
      and the model stays as it is. */
  lemma {:induction false} StalePatchIsRejected<M>(codec: Codec<M>, model: M, p: Patch, tokens: seq<string>, actual: Json)
    requires codec.write(model).Some? && p.pointer == PointerTo(tokens) && Get(codec.write(model).value, tokens) == Some(actual)
    requires p.before.Some? && p.before.value != actual
    ensures Patched(codec, model, p) == (Rejected(BeforeMismatch(actual)), model)
  {
    PointerReadsBack(tokens);
    StaleIsRefused(codec.write(model).value, p);
  }

  // ---------------------------------------------------------------- batches

  ghost predicate Ascending(pos: seq<nat>, n: nat) {
    && (forall k | 0 <= k < |pos| :: pos[k] < n)
    && (forall k, l | 0 <= k < l < |pos| :: pos[k] < pos[l])
  }

  /** The patches of a list at these positions, in order. */
  ghost predicate At(pos: seq<nat>, patches: seq<Patch>, picked: seq<Patch>) {
    Ascending(pos, |patches|) && |picked| == |pos| && forall k | 0 <= k < |pos| :: picked[k] == patches[pos[k]]
  }

  lemma {:induction false} Shifted(pos: seq<nat>, patches: seq<Patch>, picked: seq<Patch>, first: bool) returns (pos': seq<nat>)
    requires patches != [] && At(pos, patches[1..], picked)
    ensures At(pos', patches, (if first then [patches[0]] else []) + picked)
    ensures 0 in pos' <==> first
    ensures forall i | 0 < i < |patches| :: i in pos' <==> i - 1 in pos
  {
    var up := seq(|pos|, k requires 0 <= k < |pos| => pos[k] + 1);
    forall i | 0 < i < |patches| ensures i in up <==> i - 1 in pos {
      if i in up { var k :| 0 <= k < |up| && up[k] == i; }
      if i - 1 in pos { var k :| 0 <= k < |pos| && pos[k] == i - 1; assert up[k] == i; }
    }
    pos' := (if first then [0] else []) + up;
  }

  /** The patches that are tried are those accepted and not rejected, all of them, in the order of the batch. */
  lemma {:induction false} ChosenExactly(patches: seq<Patch>, accepted: seq<string>, rejected: seq<string>) returns (pos: seq<nat>)
    ensures At(pos, patches, Chosen(patches, accepted, rejected))
    ensures forall i | 0 <= i < |patches| :: i in pos <==> patches[i].id in accepted && patches[i].id !in rejected
  {
    if patches == [] {
      pos := [];
    } else {
      hide At;
      var rest := ChosenExactly(patches[1..], accepted, rejected);
      pos := Shifted(rest, patches, Chosen(patches[1..], accepted, rejected), patches[0].id in accepted && patches[0].id !in rejected);
      forall i | 0 <= i < |patches| ensures i in pos <==> patches[i].id in accepted && patches[i].id !in rejected {
        if i > 0 { assert patches[1..][i - 1] == patches[i]; }
      }
    }
  }

  /** Patch `i` of a batch succeeds on what the ones before it have left. */
  ghost predicate SucceedsAt<M>(codec: Codec<M>, model: M, todo: seq<Patch>, i: nat)
    requires i < |todo|
  {
    Patched(codec, Fold(codec, model, todo[..i]), todo[i]).0 == Success
  }

  lemma {:induction false} SucceedsLater<M>(codec: Codec<M>, model: M, todo: seq<Patch>, i: nat)
    requires 0 < i < |todo|
    ensures SucceedsAt(codec, model, todo, i) <==> SucceedsAt(codec, Patched(codec, model, todo[0]).1, todo[1..], i - 1)
  {
    hide Patched;
    assert todo[..i][1..] == todo[1..][..i - 1] && todo[1..][i - 1] == todo[i];
  }

  /** Applied are exactly the patches that succeed on what the ones before them have left, and passed over
      exactly the others. */
  lemma {:induction false} AppliedExactly<M>(codec: Codec<M>, model: M, todo: seq<Patch>) returns (pos: seq<nat>, others: seq<nat>)
    ensures At(pos, todo, Survivors(codec, model, todo)) && At(others, todo, Failures(codec, model, todo))
    ensures forall i | 0 <= i < |todo| :: (i in pos <==> SucceedsAt(codec, model, todo, i)) && (i in others <==> !SucceedsAt(codec, model, todo, i))
    decreases |todo|
  {
    if todo == [] {
      pos, others := [], [];
    } else {
      hide At, Patched, SucceedsAt;
      var (applied, after) := Patched(codec, model, todo[0]);
      var works := applied.Success?;
      if !works { FailureKeepsModel(codec, model, todo[0]); }
      var p, q := AppliedExactly(codec, after, todo[1..]);
      pos := Shifted(p, todo, Survivors(codec, after, todo[1..]), works);
      others := Shifted(q, todo, Failures(codec, after, todo[1..]), !works);
      OneOfTwo(todo[0], Survivors(codec, after, todo[1..]));
      OneOfTwo(todo[0], Failures(codec, after, todo[1..]));
      SucceedsFirst(codec, model, todo);
      forall i | 0 < i < |todo| ensures (i in pos <==> SucceedsAt(codec, model, todo, i)) && (i in others <==> !SucceedsAt(codec, model, todo, i)) {
        SucceedsLater(codec, model, todo, i);
      }
    }
  }

  lemma {:induction false} OneOfTwo(p: Patch, rest: seq<Patch>)
    ensures (if true then [p] else []) + rest == [p] + rest && [] + rest == rest
  {
  }

  lemma {:induction false} SucceedsFirst<M>(codec: Codec<M>, model: M, todo: seq<Patch>)
    requires todo != []
    ensures SucceedsAt(codec, model, todo, 0) <==> Patched(codec, model, todo[0]).0.Success?
  {
    hide Patched;
    assert todo[..0] == [];
  }

  /** A batch is taken back exactly if one of its patches fails, on what the ones before it have left, and the
      mode is Atomic, or it is Adaptive and the patch critical. */
  lemma {:induction false} RollbackExactly<M>(codec: Codec<M>, model: M, mode: FailureMode, todo: seq<Patch>)
    ensures FatalFailure(codec, model, mode, todo)
            <==> exists i :: 0 <= i < |todo| && !SucceedsAt(codec, model, todo, i) && (mode == Atomic || (mode == Adaptive && todo[i].critical))
    decreases |todo|
  {
    hide Patched, SucceedsAt;
    if todo != [] {
      var after := Patched(codec, model, todo[0]).1;
      RollbackExactly(codec, after, mode, todo[1..]);
      SucceedsFirst(codec, model, todo);
      forall i | 0 < i < |todo| ensures SucceedsAt(codec, model, todo, i) <==> SucceedsAt(codec, after, todo[1..], i - 1) {
        SucceedsLater(codec, model, todo, i);
      }
      if j :| 0 <= j < |todo[1..]| && !SucceedsAt(codec, after, todo[1..], j) && (mode == Atomic || (mode == Adaptive && todo[1..][j].critical)) {
        assert !SucceedsAt(codec, model, todo, j + 1) && todo[j + 1] == todo[1..][j];
      }
      if i :| 0 < i < |todo| && !SucceedsAt(codec, model, todo, i) && (mode == Atomic || (mode == Adaptive && todo[i].critical)) {
        assert !SucceedsAt(codec, after, todo[1..], i - 1) && todo[i] == todo[1..][i - 1];
      }
    }
  }
}
