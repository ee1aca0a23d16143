/** One patch of the life model: a pointer-addressed edit of its JSON form, and what it does to
    the rest of the tree. */
module LifePatch {
  import opened Wrappers
  import opened JsonPointer

  datatype Op = Replace | Merge | Append | Insert | Delete

  datatype Reason =
    | InvalidArrayIndex | NeitherObjectNorArray
    | MergeNeedsObjectValue | MergeNeedsObjectTarget
    | AppendNeedsArrayParent | AppendNeedsArrayPath
    | InsertNeedsArrayParent | InsertNeedsArrayPath
    | DeleteNeedsParent | CannotDeleteRoot

  datatype Error =
    | InvalidPath
    | BeforeMismatch(actual: Json)
    | IndexOutOfBounds(index: nat, len: nat)
    | InvalidOperation(reason: Reason)
    | Serialization
    | ValidationFailed

  datatype Patch = Patch(id: string, op: Op, pointer: string, before: Option<Json>, after: Json, critical: bool)

  /** An edit succeeds, is refused with an error, or yields an unsuccessful result. */
  datatype Edited = Changed(value: Json) | Refused(refusal: Error) | Failed(failure: Error)

  // ---------------------------------------------------- what an edit means

  predicate HasParent(pointer: string) {
    |Split(pointer)| > 2
  }

  /** The last segment as it is written: it is not unescaped. */
  function Key(pointer: string): string {
    var parts := Split(pointer);
    parts[|parts| - 1]
  }

  function Up(pointer: string): seq<string>
    requires Tokens(pointer).Some? && HasParent(pointer)
  {
    ParentTokens(pointer);
    var ts := Tokens(pointer).value;
    ts[..|ts| - 1]
  }

  function RemoveAt(items: seq<Json>, i: nat): seq<Json>
    requires i < |items|
  {
    items[..i] + items[i + 1..]
  }

  function InsertAt(items: seq<Json>, i: nat, x: Json): seq<Json>
    requires i <= |items|
  {
    items[..i] + [x] + items[i..]
  }

  /** A path that resolves has a parent that holds it; in an array its segment is an index. */
  lemma {:induction false} ParentHolds(v: Json, pointer: string)
    requires Resolve(v, pointer).Some? && HasParent(pointer)
    ensures Tokens(pointer) == Some(Up(pointer) + [Unescape(Key(pointer))])
    ensures Get(v, Up(pointer)).Some?
    ensures var parent := Get(v, Up(pointer)).value;
      && (parent.Obj? || parent.Arr?)
      && Child(parent, Unescape(Key(pointer))) == Resolve(v, pointer)
      && (parent.Arr? ==>
            && ParseUsize(Key(pointer)) == ParseIndex(Key(pointer)) && ParseIndex(Key(pointer)).Some?
            && ParseIndex(Key(pointer)).value < |parent.items| && Unescape(Key(pointer)) == Key(pointer))
  {
    hide Unescape, ParseUsize, ParseIndex;
    ParentTokens(pointer);
    var ts, last := Tokens(pointer).value, Unescape(Key(pointer));
    assert ts == Up(pointer) + [last];
    GetConcat(v, Up(pointer), [last]);
    var parent := Get(v, Up(pointer)).value;
    assert Get(parent, [last]) == Child(parent, last);
    if parent.Arr? {
      IndexIsEscapeFree(Key(pointer));
    }
  }

  function ParentOf(v: Json, pointer: string): (parent: Json)
    requires Resolve(v, pointer).Some? && HasParent(pointer)
    ensures parent.Obj? || parent.Arr?
  {
    ParentHolds(v, pointer);
    Get(v, Up(pointer)).value
  }

  /** The index that a path into an array names. */
  function IndexOf(v: Json, pointer: string): (i: nat)
    requires Resolve(v, pointer).Some? && HasParent(pointer) && ParentOf(v, pointer).Arr?
    ensures i < |ParentOf(v, pointer).items| && ParseIndex(Key(pointer)) == Some(i)
  {
    ParentHolds(v, pointer);
    ParseIndex(Key(pointer)).value
  }

  /** What the operation makes of the parent value, for the operations that edit the parent. */
  function EditParent(v: Json, p: Patch): Edited
    requires Resolve(v, p.pointer).Some? && HasParent(p.pointer) && p.op != Merge
  {
    ParentHolds(v, p.pointer);
    var parent, key := ParentOf(v, p.pointer), Key(p.pointer);
    if p.op == Append then
      if parent.Arr? then Changed(Arr(parent.items + [p.after])) else Failed(InvalidOperation(AppendNeedsArrayParent))
    else if key == [] then Refused(InvalidPath)
    else if parent.Arr? then
      var i := ParseIndex(key).value;
      match p.op {
        case Replace => Changed(Arr(parent.items[i := p.after]))
        case Insert => Changed(Arr(InsertAt(parent.items, i, p.after)))
        case Delete => Changed(Arr(RemoveAt(parent.items, i)))
      }
    else
      match p.op
      case Replace => Changed(Obj(parent.fields[key := p.after]))
      case Insert => Failed(InvalidOperation(InsertNeedsArrayParent))
      case Delete => Changed(Obj(parent.fields - {key}))
  }

  function EditRoot(p: Patch): Edited
    requires p.op != Merge
  {
    match p.op
    case Replace => Changed(p.after)
    case Append => Failed(InvalidOperation(AppendNeedsArrayPath))
    case Insert => Failed(InvalidOperation(InsertNeedsArrayPath))
    case Delete => Failed(InvalidOperation(CannotDeleteRoot))
  }

  function EditMerge(v: Json, p: Patch): Edited
    requires Resolve(v, p.pointer).Some?
  {
    var target := Resolve(v, p.pointer).value;
    if !target.Obj? then Failed(InvalidOperation(MergeNeedsObjectTarget))
    else if !p.after.Obj? then Failed(InvalidOperation(MergeNeedsObjectValue))
    else Changed(Put(v, Tokens(p.pointer).value, Obj(target.fields + p.after.fields)))
  }

  /** The whole edit, with no branch for a missing parent or for an index out of bounds. */
  function Edit(v: Json, p: Patch): Edited {
    var target := Resolve(v, p.pointer);
    if target.None? then Refused(InvalidPath)
    else if p.before.Some? && p.before.value != target.value then Refused(BeforeMismatch(target.value))
    else if p.op == Merge then EditMerge(v, p)
    else if !HasParent(p.pointer) then EditRoot(p)
    else
      match EditParent(v, p)
      case Changed(parent) =>
        ParentHolds(v, p.pointer);
        Changed(Put(v, Up(p.pointer), parent))
      case other => other
  }

  // --------------------------------------------------- the edit as performed

  /** The operation on a parent value, by the parent's kind, with every error it can report. */
  function Operated(parent: Json, op: Op, key: string, after: Json): Edited {
    match parent
    case Obj(fields) =>
      if op == Replace then Changed(Obj(fields[key := after]))
      else if op == Delete then Changed(Obj(fields - {key}))
      else Failed(InvalidOperation(InsertNeedsArrayParent))
    case Arr(items) =>
      var index := ParseUsize(key);
      if index.None? then Failing(op, InvalidOperation(InvalidArrayIndex))
      else if index.value > |items| || (index.value == |items| && op != Insert) then
        Failing(op, IndexOutOfBounds(index.value, |items|))
      else if op == Insert then Changed(Arr(InsertAt(items, index.value, after)))
      else if op == Replace then Changed(Arr(items[index.value := after]))
      else Changed(Arr(RemoveAt(items, index.value)))
    case _ =>
      Failing(op, InvalidOperation(
        if op == Replace then NeitherObjectNorArray else if op == Insert then InsertNeedsArrayParent else DeleteNeedsParent))
  }

  /** Replace leaves the patch with its error; the other operations report it in their result. */
  function Failing(op: Op, error: Error): Edited {
    if op == Replace then Refused(error) else Failed(error)
  }

  lemma {:induction false} ParentResolves(v: Json, pointer: string)
    requires Resolve(v, pointer).Some? && HasParent(pointer)
    ensures ParentPointer(pointer).Some? && Tokens(ParentPointer(pointer).value) == Some(Up(pointer))
    ensures Resolve(v, ParentPointer(pointer).value) == Some(ParentOf(v, pointer))
  {
    hide Split, Join, Unescape, Get, Child, ParseUsize;
    ParentHolds(v, pointer);
    ParentTokens(pointer);
  }

  /** None of the errors for a parent of the wrong kind or for a bad index can come. */
  lemma {:induction false} OperatedOnParent(v: Json, p: Patch)
    requires Resolve(v, p.pointer).Some? && HasParent(p.pointer) && Key(p.pointer) != []
    requires p.op == Replace || p.op == Insert || p.op == Delete
    ensures Operated(ParentOf(v, p.pointer), p.op, Key(p.pointer), p.after) == EditParent(v, p)
  {
    hide Split, Unescape, Get, Child, ParseUsize, ParseIndex;
    ParentHolds(v, p.pointer);
  }

  /** The edit step by step. That it equals `Edit` says that its branches for a missing parent, for
      a parent that is no container and for an index out of bounds are never taken. */
  method PerformEdit(v: Json, p: Patch) returns (r: Edited)
    ensures r == Edit(v, p)
  {
    hide Split, Join, Tokens, Resolve, Operated, ParentOf, Put, Unescape;
    var target := Resolve(v, p.pointer);
    if target.None? { return Refused(InvalidPath); }
    if p.before.Some? && p.before.value != target.value { return Refused(BeforeMismatch(target.value)); }
    if p.op == Merge {
      if !target.value.Obj? {
        r := Failed(InvalidOperation(MergeNeedsObjectTarget));
      } else if !p.after.Obj? {
        r := Failed(InvalidOperation(MergeNeedsObjectValue));
      } else {
        ResolvesByTokens(v, p.pointer);
        r := Changed(Put(v, Tokens(p.pointer).value, Obj(target.value.fields + p.after.fields)));
      }
      return;
    }
    var up := ParentPointer(p.pointer);
    if up.None? {
      r := EditRoot(p);
      return;
    }
    ParentResolves(v, p.pointer);
    ResolvesByTokens(v, up.value);
    var key := LastSegment(p.pointer);
    var parent := Resolve(v, up.value);
    if p.op == Append {
      if parent.None? {
        r := Refused(InvalidPath);
      } else if parent.value.Arr? {
        r := Changed(Put(v, Tokens(up.value).value, Arr(parent.value.items + [p.after])));
      } else {
        r := Failed(InvalidOperation(AppendNeedsArrayParent));
      }
    } else if key.None? {
      r := Refused(InvalidPath);
    } else if parent.None? {
      r := if p.op == Replace then Changed(v) else Refused(InvalidPath);
    } else {
      OperatedOnParent(v, p);
      r := Operated(parent.value, p.op, key.value, p.after);
      if r.Changed? {
        r := Changed(Put(v, Tokens(up.value).value, r.value));
      }
    }
  }

  lemma {:induction false} ResolvesByTokens(v: Json, pointer: string)
    requires Resolve(v, pointer).Some?
    ensures Tokens(pointer).Some? && Get(v, Tokens(pointer).value) == Resolve(v, pointer)
  {
  }

  // ------------------------------------------------------- laws of one edit

  lemma {:induction false} EscapeFree(segment: string)
    requires '~' !in segment
    ensures Unescape(segment) == segment
  {
    NoTilde(segment, '1', '/');
    NoTilde(segment, '0', '~');
  }

  lemma {:induction false} NoTilde(s: string, code: char, replacement: char)
    requires '~' !in s
    ensures Substitute(s, code, replacement) == s
  {
    if s != [] {
      NoTilde(s[1..], code, replacement);
    }
  }

  /** A pointer of one token addresses no parent, so Replace takes the whole document for it. */
  lemma {:induction false} OneTokenReplacesRoot(v: Json, p: Patch)
    requires p.op == Replace && Edit(v, p).Changed? && |Tokens(p.pointer).value| <= 1
    ensures Edit(v, p).value == p.after
  {
    assert p.pointer != [] ==> |Tokens(p.pointer).value| == |Split(p.pointer)| - 1;
  }

  /** Replace makes its path read back as the new value exactly if the last segment unescapes to
      itself; otherwise it writes beside the value it was asked to replace. */
  lemma {:induction false} ReplaceReadsBack(v: Json, p: Patch)
    requires p.op == Replace && HasParent(p.pointer) && Edit(v, p).Changed?
    ensures Resolve(Edit(v, p).value, p.pointer) == Some(p.after)
       <==> (Unescape(Key(p.pointer)) == Key(p.pointer) || Resolve(v, p.pointer) == Some(p.after))
  {
    hide Split, Unescape, ParseUsize, ParseIndex, Put;
    ParentHolds(v, p.pointer);
    var up, last := Up(p.pointer), Unescape(Key(p.pointer));
    var parent := EditParent(v, p).value;
    PutGet(v, up, parent, [last]);
    assert Get(parent, [last]) == Child(parent, last);
  }

  lemma {:induction false} PartsOf(s: string, i: nat)
    requires i < |Split(s)|
    ensures forall c | c in Split(s)[i] :: c in s
  {
    if s != [] {
      assert forall c | c in s[1..] :: c in s;
      var rest := Split(s[1..]);
      if s[0] == '/' {
        if i > 0 { PartsOf(s[1..], i - 1); }
      } else {
        PartsOf(s[1..], i);
        if i == 0 { assert Split(s)[0] == [s[0]] + rest[0]; }
      }
    }
  }

  /** For a pointer without escapes Replace always reads back. */
  lemma {:induction false} EscapeFreeReplace(v: Json, p: Patch)
    requires p.op == Replace && HasParent(p.pointer) && Edit(v, p).Changed? && '~' !in p.pointer
    ensures Resolve(Edit(v, p).value, p.pointer) == Some(p.after)
  {
    hide Split, Unescape, Resolve, Edit;
    PartsOf(p.pointer, |Split(p.pointer)| - 1);
    EscapeFree(Key(p.pointer));
    ReplaceReadsBack(v, p);
  }

  lemma {:induction false} ParentChildren(v: Json, p: Patch, token: string)
    requires Edit(v, p).Changed? && HasParent(p.pointer) && token != Key(p.pointer)
    requires p.op == Replace || (p.op == Delete && ParentOf(v, p.pointer).Obj?)
    ensures Child(EditParent(v, p).value, token) == Child(ParentOf(v, p.pointer), token)
  {
    hide Split, Unescape, ParseUsize, Put, Get;
    ParentHolds(v, p.pointer);
    var parent := Get(v, Up(p.pointer)).value;
    if parent.Arr? && ParseIndex(token).Some? && ParseIndex(token) == ParseIndex(Key(p.pointer)) {
      IndexIsCanonical(token, Key(p.pointer));
    }
  }

  lemma {:induction false} Parting(up: seq<string>, key: string, other: seq<string>)
    requires Disjoint(up + [key], other)
    ensures if up <= other then |up| < |other| && other[|up|] != key else Disjoint(up, other)
  {
    assert (up + [key])[..|up|] == up;
  }

  /** Replace, and Delete from an object, leave every path alone that parts from the one written. */
  lemma {:induction false} ElsewhereUnchanged(v: Json, p: Patch, other: seq<string>)
    requires HasParent(p.pointer) && Edit(v, p).Changed?
    requires p.op == Replace || (p.op == Delete && ParentOf(v, p.pointer).Obj?)
    requires Disjoint(Up(p.pointer) + [Key(p.pointer)], other)
    ensures Get(Edit(v, p).value, other) == Get(v, other)
  {
    hide Split, Unescape, ParseUsize, ParseIndex, Put, EditParent, Child;
    ParentHolds(v, p.pointer);
    var up, key := Up(p.pointer), Key(p.pointer);
    var parent, parent' := Get(v, up).value, EditParent(v, p).value;
    Parting(up, key, other);
    if up <= other {
      var rest := other[|up|..];
      assert other == up + rest;
      PutGet(v, up, parent', rest);
      GetConcat(v, up, rest);
      ParentChildren(v, p, rest[0]);
    } else {
      PutElsewhere(v, up, parent', other);
    }
  }

  /** Append adds one element at the end of the array that holds the path; every path that resolved
      still does, to the same value, except the array and what contains it. */
  lemma {:induction false} AppendLaw(v: Json, p: Patch, other: seq<string>)
    requires p.op == Append && Edit(v, p).Changed?
    ensures var parent := Get(v, Up(p.pointer));
      && parent.Some? && parent.value.Arr?
      && Get(Edit(v, p).value, Up(p.pointer)) == Some(Arr(parent.value.items + [p.after]))
    ensures Get(v, other).Some? && !(other <= Up(p.pointer)) ==> Get(Edit(v, p).value, other) == Get(v, other)
  {
    hide Split, Unescape, ParseUsize, ParseIndex, Put;
    ParentHolds(v, p.pointer);
    var up := Up(p.pointer);
    var parent, parent' := Get(v, up).value, EditParent(v, p).value;
    PutGet(v, up, parent', []);
    assert up + [] == up;
    if Get(v, other).Some? && !(other <= up) {
      if up <= other {
        var rest := other[|up|..];
        assert other == up + rest;
        PutGet(v, up, parent', rest);
        GetConcat(v, up, rest);
      } else {
        PutElsewhere(v, up, parent', other);
      }
    }
  }

  /** What a path under an array reads when one element is written at `i`, or taken out there. */
  lemma {:induction false} ArrayEdit(v: Json, p: Patch, token: string, rest: seq<string>)
    requires p.op == Insert || (p.op == Delete && HasParent(p.pointer))
    requires Edit(v, p).Changed? && ParentOf(v, p.pointer).Arr? && ParseIndex(token).Some?
    ensures var items, i, j := ParentOf(v, p.pointer).items, IndexOf(v, p.pointer), ParseIndex(token).value;
            var items' := if p.op == Insert then InsertAt(items, i, p.after) else RemoveAt(items, i);
            && Get(v, Up(p.pointer) + ([token] + rest)) == (if j < |items| then Get(items[j], rest) else None)
            && Get(Edit(v, p).value, Up(p.pointer) + ([token] + rest)) == (if j < |items'| then Get(items'[j], rest) else None)
  {
    hide Split, Unescape, ParseUsize, ParseIndex, Put, InsertAt, RemoveAt;
    ParentHolds(v, p.pointer);
    var parent' := EditParent(v, p).value;
    PutGet(v, Up(p.pointer), parent', [token] + rest);
    GetConcat(v, Up(p.pointer), [token] + rest);
    ArrayChild(ParentOf(v, p.pointer).items, token, rest);
    ArrayChild(parent'.items, token, rest);
  }

  lemma {:induction false} ArrayChild(items: seq<Json>, token: string, rest: seq<string>)
    requires ParseIndex(token).Some?
    ensures var j := ParseIndex(token).value;
            Get(Arr(items), [token] + rest) == if j < |items| then Get(items[j], rest) else None
  {
    hide ParseIndex;
    assert ([token] + rest)[1..] == rest;
  }

  /** Insert puts the new value at its index; what was at that index or behind it, with all that is
      below, is found one index later, and what was in front where it was. */
  lemma {:induction false} InsertShifts(v: Json, p: Patch, token: string, was: string, rest: seq<string>)
    requires p.op == Insert && Edit(v, p).Changed? && ParseIndex(token).Some?
    ensures var i, j := IndexOf(v, p.pointer), ParseIndex(token).value;
            var up, v' := Up(p.pointer), Edit(v, p).value;
            && (j < i ==> Get(v', up + ([token] + rest)) == Get(v, up + ([token] + rest)))
            && (j == i ==> Get(v', up + ([token] + rest)) == Get(p.after, rest))
            && (j > i && ParseIndex(was) == Some(j - 1) ==> Get(v', up + ([token] + rest)) == Get(v, up + ([was] + rest)))
  {
    hide Split, Unescape, ParseUsize, ParseIndex, Put, Get, Child;
    ArrayEdit(v, p, token, rest);
    if ParseIndex(was).Some? { ArrayEdit(v, p, was, rest); }
  }

  /** Delete closes the gap: what was behind its index, with all that is below, is found one index
      earlier, and what was in front where it was. */
  lemma {:induction false} DeleteShifts(v: Json, p: Patch, token: string, was: string, rest: seq<string>)
    requires p.op == Delete && HasParent(p.pointer) && Edit(v, p).Changed? && ParentOf(v, p.pointer).Arr? && ParseIndex(token).Some?
    ensures var i, j := IndexOf(v, p.pointer), ParseIndex(token).value;
            var up, v' := Up(p.pointer), Edit(v, p).value;
            && (j < i ==> Get(v', up + ([token] + rest)) == Get(v, up + ([token] + rest)))
            && (j >= i && ParseIndex(was) == Some(j + 1) ==> Get(v', up + ([token] + rest)) == Get(v, up + ([was] + rest)))
  {
    hide Split, Unescape, ParseUsize, ParseIndex, Put, Get, Child;
    ArrayEdit(v, p, token, rest);
    if ParseIndex(was).Some? { ArrayEdit(v, p, was, rest); }
  }

  /** Insert and Delete leave every path alone that does not run into the array they change. */
  lemma {:induction false} OutsideTheArray(v: Json, p: Patch, other: seq<string>)
    requires p.op == Insert || (p.op == Delete && HasParent(p.pointer))
    requires Edit(v, p).Changed? && ParentOf(v, p.pointer).Arr? && Disjoint(Up(p.pointer), other)
    ensures Get(Edit(v, p).value, other) == Get(v, other)
  {
    hide Split, Unescape, ParseUsize, ParseIndex, Put, EditParent, Child;
    ParentHolds(v, p.pointer);
    PutElsewhere(v, Up(p.pointer), EditParent(v, p).value, other);
  }

  /** Merge: the new fields, and the old ones they do not name. */
  lemma {:induction false} MergeLaw(v: Json, p: Patch, field: string)
    requires p.op == Merge && Edit(v, p).Changed?
    ensures var ts := Tokens(p.pointer).value;
      Get(Edit(v, p).value, ts + [field])
      == if Child(p.after, field).Some? then Child(p.after, field) else Get(v, ts + [field])
  {
    hide Split, Unescape, ParseUsize, ParseIndex, Put;
    var ts, target := Tokens(p.pointer).value, Resolve(v, p.pointer).value;
    var merged := Obj(target.fields + p.after.fields);
    PutGet(v, ts, merged, [field]);
    GetConcat(v, ts, [field]);
    assert Get(merged, [field]) == Child(merged, field);
    assert Get(target, [field]) == Child(target, field);
  }

  /** Insert and then Delete at the same path is the identity. */
  lemma {:induction false} InsertThenDelete(v: Json, p: Patch, q: Patch)
    requires p.op == Insert && Edit(v, p).Changed?
    requires q.op == Delete && q.pointer == p.pointer && (q.before == None || q.before == Some(p.after))
    ensures Edit(Edit(v, p).value, q) == Changed(v)
  {
    hide Split, Unescape, ParseUsize, ParseIndex, Put;
    ParentHolds(v, p.pointer);
    var up, key := Up(p.pointer), Key(p.pointer);
    var items, i := Get(v, up).value.items, ParseIndex(key).value;
    var grown := InsertAt(items, i, p.after);
    PutGet(v, up, Arr(grown), [key]);
    PutTwice(v, up, Arr(grown), Arr(items));
    assert Get(Arr(grown), [key]) == Child(Arr(grown), key);
    assert RemoveAt(grown, i) == items;
  }

  /** Delete from an array and then Insert of what was there gives the document back unless it was
      the last element: then the path no longer resolves and Insert is refused. */
  lemma {:induction false} DeleteThenInsert(v: Json, p: Patch, q: Patch)
    requires p.op == Delete && HasParent(p.pointer) && Edit(v, p).Changed? && ParentOf(v, p.pointer).Arr?
    requires q.op == Insert && q.pointer == p.pointer && q.before == None && Some(q.after) == Resolve(v, p.pointer)
    ensures var last := IndexOf(v, p.pointer) + 1 == |ParentOf(v, p.pointer).items|;
      Edit(Edit(v, p).value, q) == if last then Refused(InvalidPath) else Changed(v)
  {
    hide Split, Unescape, ParseUsize, ParseIndex, Put;
    ParentHolds(v, p.pointer);
    var up, key := Up(p.pointer), Key(p.pointer);
    var items, i := Get(v, up).value.items, ParseIndex(key).value;
    var shrunk := RemoveAt(items, i);
    PutGet(v, up, Arr(shrunk), [key]);
    PutTwice(v, up, Arr(shrunk), Arr(items));
    assert Get(Arr(shrunk), [key]) == Child(Arr(shrunk), key);
    if i + 1 < |items| {
      assert InsertAt(shrunk, i, items[i]) == items;
    }
  }

  /** After Delete from an object the path resolves no more, exactly if its last segment unescapes
      to itself. */
  lemma {:induction false} DeleteFromObject(v: Json, p: Patch)
    requires p.op == Delete && HasParent(p.pointer) && Edit(v, p).Changed? && ParentOf(v, p.pointer).Obj?
    ensures Resolve(Edit(v, p).value, p.pointer).None? <==> Unescape(Key(p.pointer)) == Key(p.pointer)
  {
    hide Split, Unescape, ParseUsize, ParseIndex, Put;
    ParentHolds(v, p.pointer);
    var up, last := Up(p.pointer), Unescape(Key(p.pointer));
    var parent := EditParent(v, p).value;
    PutGet(v, up, parent, [last]);
    assert Get(parent, [last]) == Child(parent, last);
  }
}
