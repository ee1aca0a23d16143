/** Which findings can be masked safely: in terms of where they are found while masking, and of what
    they are made of. */
module PrivacyFindings {
  import opened Wrappers
  import opened PrivacyEngine
  import opened PrivacyPlaceholders
  import opened PrivacyMarks
  import opened PrivacyRoundTrip

  /** Position `p` comes after a `<` and before its `>`. */
  ghost predicate Inside(text: string, p: nat) {
    p <= |text| && exists h :: 0 <= h < p && OpenTo(text, h, p)
  }

  ghost predicate OpenTo(text: string, h: nat, p: nat) {
    h < p <= |text| && text[h] == '<' && '>' !in text[h..p]
  }

  /** No finding is found from inside an earlier placeholder, and none that is blocked is found. */
  ghost predicate NothingAcross(policy: PrivacyPolicy, text: string, l: Ledger, findings: seq<Finding>)
    decreases |findings|
  {
    findings != [] ==>
      && FoundApart(policy, text, findings[0])
      && var (t, m) := MaskOne(policy, text, l, findings[0]);
         NothingAcross(policy, t, m, findings[1..])
  }

  ghost predicate FoundApart(policy: PrivacyPolicy, text: string, f: Finding) {
    var action, p := ActionFor(policy, f.ptype), Find(text, f.original);
    action == Allow || p.None? || (action == Mask && !Inside(text, p.value))
  }

  // ------------------------------------------------------ labels and places

  /** Label `key` stands at `i`, and `p` is inside its placeholder. */
  ghost predicate Covers(a: seq<Mark>, i: nat, p: nat) {
    i < |a| && a[i].Open? && i < p < i + |a[i].key|
  }

  ghost predicate NothingPutAcross(a: seq<Mark>, o: Origins) {
    forall x | x in Labels(a) :: Across(a, x, o) == {}
  }

  lemma {:induction false} KeyInside(key: string, n: nat)
    requires Shaped(key) && 0 < n
    ensures n < |key| ==> '>' !in key[..n]
    ensures |key| <= n ==> '>' in key
  {
  }

  lemma {:induction false} InsideIsCovered(a: seq<Mark>, p: nat, o: Origins)
    requires Good(a, o) && NothingPutAcross(a, o) && p <= |a|
    ensures Inside(Show(a), p) <==> exists i: nat :: Covers(a, i, p)
  {
    hide Good, Meaning, Labels, Uses, Across, Shaped, At;
    forall i: nat | i < p && i < |a| && Show(a)[i] == '<'
      ensures a[i].Open? && (OpenTo(Show(a), i, p) <==> Covers(a, i, p))
    {
      MarkOk(a, i, o);
      LabelAt(a, i);
      StandsAt(a, i, a[i].key, o);
      OpenToEnd(Show(a), i, p, a[i].key);
    }
  }

  lemma {:induction false} OpenToEnd(text: string, i: nat, p: nat, key: string)
    requires At(text, i, key) && Shaped(key) && i < p <= |text|
    ensures OpenTo(text, i, p) <==> p < i + |key|
  {
    hide Shaped;
    ShapedStart(key);
    AtChars(text, i, key);
    KeyInside(key, p - i);
    if p < i + |key| {
      assert text[i..p] == key[..p - i];
    } else {
      var e :| 0 <= e < |key| && key[e] == '>';
      assert text[i..p][e] == '>';
    }
  }

  lemma {:induction false} AcrossOf(a: seq<Mark>, i: nat, key: string, o: Origins)
    requires Good(a, o) && i < |a| && a[i] == Open(key)
    ensures key in Labels(a) && Across(a, key, o) == Uses(a[i + 1..], TailLength(key), o)
  {
    hide Good, Meaning, Labels, Uses, Across;
    LabelAt(a, i);
    var j := LabelPosition(a, key, o);
    OneLabel(a, i, j, key, o);
  }

  lemma {:induction false} NoneAcrossWhole(a: seq<Mark>, i: nat, key: string, w: seq<Mark>, o: Origins)
    requires Good(a, o) && i <= |a| && key != [] && a[i..] == Opened(key) + w
    ensures key in Labels(a) && Across(a, key, o) == {}
  {
    hide Good, Meaning, Labels, Uses, Across;
    assert a[i] == a[i..][0] == Open(key);
    AcrossOf(a, i, key, o);
    assert a[i + 1..] == a[i..][1..] == Chrs(key[1..]) + w;
    ChrsUse(key[1..], w, |key| - 1, o);
  }

  lemma {:induction false} PutInside(a: seq<Mark>, p: nat, f: string, key: string, i: nat, z: string, o: Origins)
    requires Good(PutIn(a, p, f, key), o) && key != [] && p + |f| <= |a| && i < p < i + |z|
    requires i + |z| <= |a| && a[i..] == Opened(z) + a[i + |z|..]
    ensures Across(PutIn(a, p, f, key), z, o) != {}
  {
    hide Good, Meaning, Labels, Uses, Across;
    var a', w, head := PutIn(a, p, f, key), a[p + |f|..], z[1..p - i];
    assert a'[i] == a[i] == a[i..][0];
    AcrossOf(a', i, z, o);
    forall j | 0 <= j < |head| ensures a[i + 1..p][j] == Chrs(head)[j] {
      assert a[i + 1 + j] == a[i..][1 + j] == Opened(z)[1 + j];
    }
    assert a[i + 1..p] == Chrs(head);
    assert a'[i + 1..] == a[i + 1..p] + (Opened(key) + w);
    ChrsUse(head, Opened(key) + w, |z| - 1, o);
    OpenedIsUsed(key, w, |z| - (p - i), o);
  }

  lemma {:induction false} PutBehind(a: seq<Mark>, p: nat, f: string, key: string, i: nat, z: string, o: Origins)
    requires Good(PutIn(a, p, f, key), o) && key != [] && p + |f| <= |a| && z != [] && i + |z| <= p
    requires a[i..] == Opened(z) + a[i + |z|..]
    ensures Across(PutIn(a, p, f, key), z, o) == {}
  {
    hide Good, Meaning, Labels, Uses, Across;
    var a', rest := PutIn(a, p, f, key), a[i + |z|..p] + (Opened(key) + a[p + |f|..]);
    assert a[i..p] == a[i..][..p - i] == Opened(z) + a[i + |z|..p];
    assert a'[i..] == a[i..p] + (Opened(key) + a[p + |f|..]);
    assert a'[i..] == Opened(z) + rest;
    NoneAcrossWhole(a', i, z, rest, o);
  }

  /** What a new placeholder at `p` does to one that stands whole at `i`. */
  lemma {:induction false} PutAcrossOne(a: seq<Mark>, p: nat, f: string, key: string, i: nat, o: Origins)
    requires Good(a, o) && i < |a| && a[i].Open? && Across(a, a[i].key, o) == {} && key != []
    requires p + |f| <= |a| && a == a[..p] + (Chrs(f) + a[p + |f|..]) && Good(PutIn(a, p, f, key), o)
    ensures Across(PutIn(a, p, f, key), a[i].key, o) != {} <==> Covers(a, i, p)
  {
    hide Good, Meaning, Labels, Uses, Across, At, Show;
    var z, a' := a[i].key, PutIn(a, p, f, key);
    StandsAt(a, i, z, o);
    if p <= i {
      AfterPut(a, p, f, i);
      var i' := i - |f| + |key|;
      assert a'[i'..] == a[i..];
      NoneAcrossWhole(a', i', z, a[i + |z|..], o);
    } else if p >= i + |z| {
      PutBehind(a, p, f, key, i, z, o);
    } else {
      PutInside(a, p, f, key, i, z, o);
    }
  }

  lemma {:induction false} AfterPut(a: seq<Mark>, p: nat, f: string, i: nat)
    requires p <= i < |a| && a[i].Open? && p + |f| <= |a| && a == a[..p] + (Chrs(f) + a[p + |f|..])
    ensures p + |f| <= i
  {
    assert forall j | p <= j < p + |f| :: a[j] == Chr(f[j - p]);
  }

  lemma {:induction false} OpenedIsUsed(key: string, w: seq<Mark>, n: nat, o: Origins)
    requires key != [] && n > 0
    ensures key in Uses(Opened(key) + w, n, o)
  {
    assert (Opened(key) + w)[0] == Open(key);
  }

  /** A new placeholder is put across an earlier one exactly if its finding starts inside that one. */
  lemma {:induction false} PutAcross(a: seq<Mark>, p: nat, f: string, key: string, o: Origins)
    requires OriginsOk(o) && key in o && o[key] == f && Good(a, o) && key !in Labels(a) && At(Show(a), p, f)
    requires NothingPutAcross(a, o)
    ensures NothingPutAcross(PutIn(a, p, f, key), o) <==> !Inside(Show(a), p)
  {
    hide Good, Meaning, Uses, Across, Shaped, Show, Inside, Labels;
    var a' := PutIn(a, p, f, key);
    PutInLaw(a, p, f, key, o);
    assert Shaped(key);
    ShapedStart(key);
    InsideIsCovered(a, p, o);
    assert a'[p..] == Opened(key) + a[p + |f|..];
    NoneAcrossWhole(a', p, key, a[p + |f|..], o);
    if i: nat :| Covers(a, i, p) {
      LabelAt(a, i);
      PutAcrossOne(a, p, f, key, i, o);
    } else {
      forall x | x in Labels(a') ensures Across(a', x, o) == {} {
        if x != key {
          var i := LabelPosition(a, x, o);
          PutAcrossOne(a, p, f, key, i, o);
        }
      }
    }
  }

  // ------------------------------------------------------------- one message

  ghost predicate Blocked(k: string) {
    exists t, n: nat :: k == BlockedPlaceholder(t, n)
  }

  lemma {:induction false} BlockedHasNoEntry(l: Ledger, k: string)
    requires Issued(l) && Blocked(k)
    ensures k !in l.entries
  {
    hide Placeholder, BlockedPlaceholder;
    var t, n: nat :| k == BlockedPlaceholder(t, n);
    forall u, m: nat ensures k != Placeholder(u, m) { BlockedIsNoPlaceholder(t, n, u, m); }
  }

  /** Something is wrong for good: a blocked label, or a placeholder put across another. */
  ghost predicate Wrong(a: seq<Mark>, o: Origins) {
    exists x :: x in Labels(a) && (Blocked(x) || Across(a, x, o) != {})
  }

  lemma {:induction false} OnePutIn(a: seq<Mark>, p: nat, f: string, key: string, o: Origins, entries: map<string, string>)
    requires OriginsOk(o) && key in o && o[key] == f && Good(a, o) && key !in Labels(a) && At(Show(a), p, f)
    requires AllStand(a, o, entries)
    ensures var a' := PutIn(a, p, f, key);
            && (key in entries && !Inside(Show(a), p) ==> AllStand(a', o, entries))
            && (Blocked(key) || Inside(Show(a), p) ==> Wrong(a', o))
  {
    hide Good, Meaning, Labels, Across, Show, At, Shaped, Inside, Blocked;
    PutAcross(a, p, f, key, o);
    PutInLaw(a, p, f, key, o);
  }

  lemma {:induction false} OneFinding(policy: PrivacyPolicy, a: seq<Mark>, l: Ledger, o: Origins, f: Finding)
    requires Known(l, o) && Issued(l) && Good(a, o) && AllStand(a, o, l.entries)
    requires ActionFor(policy, f.ptype) != Allow ==> '<' !in f.original
    ensures var a', o', l' := MarkOne(policy, a, l, f), OriginOne(policy, l, o, f), MaskOne(policy, Show(a), l, f).1;
            if FoundApart(policy, Show(a), f) then AllStand(a', o', l'.entries) else Wrong(a', o')
  {
    hide Good, Meaning, Labels, Across, Show, At, Find, Shaped, IssuedLabel, Placeholder, BlockedPlaceholder, ActionFor, ReplaceFirst, Inside, Issued, AllStand, Wrong, PutIn;
    var o', l' := OriginOne(policy, l, o, f), MaskOne(policy, Show(a), l, f).1;
    KnownNext(policy, Show(a), l, o, f);
    MaskOneIssues(policy, Show(a), l, f);
    Later(a, o, o', l.entries, l'.entries);
    if ActionFor(policy, f.ptype) != Allow && Find(Show(a), f.original).Some? {
      var p, key := Find(Show(a), f.original).value, KeyFor(policy, l, f);
      FindLaw(Show(a), f.original);
      MoreOrigins(a, o, o');
      LabelsKnown(a, o);
      OnePutIn(a, p, f.original, key, o', l'.entries);
      if ActionFor(policy, f.ptype) == Block {
        assert Blocked(key);
      }
    }
  }

  lemma {:induction false} WrongStays(policy: PrivacyPolicy, a: seq<Mark>, l: Ledger, o: Origins, findings: seq<Finding>)
    requires Known(l, o) && Good(a, o) && PlainFindings(policy, findings) && Wrong(a, o)
    ensures Wrong(MarkAll(policy, a, l, findings), OriginAll(policy, l, o, findings))
  {
    hide Good, Meaning, Labels, Across, Show, Known, PlainFindings, MarkAll, OriginAll, MaskAll, Blocked;
    MarkAllLaw(policy, a, l, o, findings);
    var x :| x in Labels(a) && (Blocked(x) || Across(a, x, o) != {});
    assert Across(a, x, o) != {} ==> Across(MarkAll(policy, a, l, findings), x, OriginAll(policy, l, o, findings)) != {};
  }

  lemma {:induction false} AllFindings(policy: PrivacyPolicy, a: seq<Mark>, l: Ledger, o: Origins, findings: seq<Finding>)
    requires Known(l, o) && Issued(l) && Good(a, o) && PlainFindings(policy, findings) && AllStand(a, o, l.entries)
    ensures var a', o' := MarkAll(policy, a, l, findings), OriginAll(policy, l, o, findings);
            if NothingAcross(policy, Show(a), l, findings) then AllStand(a', o', MaskAll(policy, Show(a), l, findings).1.entries)
            else Wrong(a', o')
    decreases |findings|
  {
    hide Good, Meaning, Labels, Across, Show, Known, PlainFindings, Issued, MarkOne, OriginOne, MaskOne, FoundApart, AllStand, Wrong;
    if findings != [] {
      var f, rest := findings[0], findings[1..];
      PlainRest(policy, findings);
      MarkOneLaw(policy, a, l, o, f);
      KnownNext(policy, Show(a), l, o, f);
      MaskOneIssues(policy, Show(a), l, f);
      OneFinding(policy, a, l, o, f);
      var a', l', o' := MarkOne(policy, a, l, f), MaskOne(policy, Show(a), l, f).1, OriginOne(policy, l, o, f);
      if FoundApart(policy, Show(a), f) {
        AllFindings(policy, a', l', o', rest);
      } else {
        WrongStays(policy, a', l', o', rest);
      }
    }
  }

  // ---------------------------------------------------------------- a batch

  /** The state of counters and map in which message `i` of the batch is masked. */
  function LedgerBefore(policy: PrivacyPolicy, l: Ledger, batch: seq<Message>, i: nat): Ledger
    requires i < |batch|
    decreases |batch|
  {
    if i == 0 then l
    else LedgerBefore(policy, MaskAll(policy, batch[0].text, l, batch[0].findings).1, batch[1..], i - 1)
  }

  lemma {:induction false} Later(a: seq<Mark>, o: Origins, o': Origins, entries: map<string, string>, entries': map<string, string>)
    requires Good(a, o) && Extends(o, o') && forall k | k in entries :: k in entries'
    ensures AllStand(a, o, entries) ==> AllStand(a, o', entries')
    ensures Wrong(a, o) ==> Wrong(a, o')
  {
    hide Good, Meaning, Labels, Across, Blocked;
    MoreOrigins(a, o, o');
  }

  lemma {:induction false} BatchFindings(policy: PrivacyPolicy, l: Ledger, o: Origins, batch: seq<Message>, i: nat)
    requires Known(l, o) && Issued(l) && PlainBatch(policy, batch) && i < |batch|
    ensures var last, a := MaskBatch(policy, l, batch).1, BatchMarks(policy, l, batch);
            var o' := BatchOrigins(policy, l, o, batch);
            && |a| == |batch| && Issued(last)
            && (if NothingAcross(policy, batch[i].text, LedgerBefore(policy, l, batch, i), batch[i].findings)
                then AllStand(a[i], o', last.entries) else Wrong(a[i], o'))
    decreases |batch|
  {
    hide Good, Meaning, Labels, Across, Known, PlainFindings, Issued, MaskAll, MarkAll, OriginAll, NothingAcross, AllStand, Wrong;
    OriginsStay(policy, l, o, batch);
    BatchIssues(policy, l, batch);
    var first := batch[0];
    var a := Chrs(first.text);
    assert Show(a) == first.text;
    PlainText(first.text, o);
    MarkAllLaw(policy, a, l, o, first.findings);
    MaskAllIssues(policy, first.text, l, first.findings);
    PlainBatchRest(policy, batch);
    var l1, o1 := MaskAll(policy, first.text, l, first.findings).1, OriginAll(policy, l, o, first.findings);
    if i == 0 {
      NoLabelsStand(a, o, l.entries);
      AllFindings(policy, a, l, o, first.findings);
      OriginsStay(policy, l1, o1, batch[1..]);
      BatchIssues(policy, l1, batch[1..]);
      Later(MarkAll(policy, a, l, first.findings), o1, BatchOrigins(policy, l1, o1, batch[1..]),
        l1.entries, MaskBatch(policy, l1, batch[1..]).1.entries);
    } else {
      BatchFindings(policy, l1, o1, batch[1..], i - 1);
    }
  }

  lemma {:induction false} NoLabelsStand(a: seq<Mark>, o: Origins, entries: map<string, string>)
    requires Labels(a) == {}
    ensures AllStand(a, o, entries)
  {
  }

  lemma {:induction false} WrongDoesNotStand(a: seq<Mark>, o: Origins, l: Ledger)
    requires Issued(l) && Wrong(a, o)
    ensures !AllStand(a, o, l.entries)
  {
    hide Labels, Across, Issued, Blocked;
    var x :| x in Labels(a) && (Blocked(x) || Across(a, x, o) != {});
    if Blocked(x) { BlockedHasNoEntry(l, x); }
  }

  /** Masking then reconstructing gives a message of a batch back, whatever the order of the keys, if
      and only if no finding of it is found from inside an earlier placeholder and none that is
      blocked is found; and that shows in the masked text, where every `<` then opens a whole
      placeholder of the map. */
  lemma {:induction false} ComesBackExactly(policy: PrivacyPolicy, batch: seq<Message>, i: nat)
    requires PlainBatch(policy, batch) && i < |batch|
    ensures var (texts, l) := MaskBatch(policy, NO_ENTRIES, batch);
            var before := LedgerBefore(policy, NO_ENTRIES, batch, i);
            && |texts| == |batch|
            && ((forall order | ListsKeys(order, l.entries) :: Restore(texts[i], l.entries, order) == batch[i].text)
                <==> NothingAcross(policy, batch[i].text, before, batch[i].findings))
            && (Whole(texts[i], l.entries) <==> NothingAcross(policy, batch[i].text, before, batch[i].findings))
  {
    hide MaskBatch, BatchMarks, BatchOrigins, PlainBatch, Good, Meaning, Show, OriginsOk, Restore, Whole, NothingAcross, AllStand, Wrong, LedgerBefore, Issued, ListsKeys;
    var a, o := Labelled(policy, batch, i);
    var l := MaskBatch(policy, NO_ENTRIES, batch).1;
    NothingKnown();
    NothingIssued();
    BatchFindings(policy, NO_ENTRIES, map[], batch, i);
    WholeIsAllStand(a, o, l.entries);
    AnyOrder(policy, batch, i);
    if Wrong(a, o) { WrongDoesNotStand(a, o, l); }
  }

  // ------------------------------------------------------------ safe findings

  /** No placeholder of the map can be mistaken for this finding. */
  ghost predicate Safe(f: string, entries: map<string, string>) {
    '>' !in f && forall k | k in entries :: !Contains(k, f)
  }

  ghost predicate SafeFindings(policy: PrivacyPolicy, findings: seq<Finding>, entries: map<string, string>) {
    forall i | 0 <= i < |findings| ::
      && ActionFor(policy, findings[i].ptype) != Block
      && (ActionFor(policy, findings[i].ptype) == Mask ==> Safe(findings[i].original, entries))
  }

  lemma {:induction false} SafeIsApart(a: seq<Mark>, o: Origins, p: nat, f: string, entries: map<string, string>)
    requires Good(a, o) && AllStand(a, o, entries) && Safe(f, entries) && At(Show(a), p, f)
    ensures !Inside(Show(a), p)
  {
    hide Good, Meaning, Labels, Uses, Across, Shaped, At, Contains, Show, Inside;
    assert p <= |a| by { AtEnds(Show(a), p, f); }
    InsideIsCovered(a, p, o);
    if i: nat :| Covers(a, i, p) {
      var z := a[i].key;
      LabelAt(a, i);
      MarkOk(a, i, o);
      StandsAt(a, i, z, o);
      PartOfKey(Show(a), i, z, p, f);
    }
  }

  lemma {:induction false} AtEnds(text: string, p: nat, f: string)
    requires At(text, p, f)
    ensures p + |f| <= |text|
  {
  }

  /** What starts inside a placeholder is part of it or takes its closing bracket. */
  lemma {:induction false} PartOfKey(text: string, i: nat, key: string, p: nat, f: string)
    requires Shaped(key) && At(text, i, key) && At(text, p, f) && i < p < i + |key|
    ensures Contains(key, f) || '>' in f
  {
    AtChars(text, i, key);
    AtChars(text, p, f);
    if p + |f| <= i + |key| {
      forall j | 0 <= j < |f| ensures key[p - i + j] == f[j] {
        assert text[i + (p - i + j)] == text[p + j];
      }
      assert key[p - i..p - i + |f|] == f;
      assert At(key, p - i, f);
    } else {
      var last := i + |key| - 1 - p;
      assert f[last] == text[p + last] == text[i + (|key| - 1)] == '>';
    }
  }

  lemma {:induction false} SafeRest(policy: PrivacyPolicy, findings: seq<Finding>, entries: map<string, string>)
    requires findings != [] && SafeFindings(policy, findings, entries)
    ensures SafeFindings(policy, findings[1..], entries)
  {
    hide Safe, ActionFor;
    forall i | 0 <= i < |findings[1..]| ensures findings[1..][i] == findings[i + 1] { }
  }

  lemma {:induction false} SafeNothingAcross(policy: PrivacyPolicy, a: seq<Mark>, l: Ledger, o: Origins, findings: seq<Finding>,
                                             entries: map<string, string>)
    requires Known(l, o) && Issued(l) && Good(a, o) && PlainFindings(policy, findings) && AllStand(a, o, l.entries)
    requires SafeFindings(policy, findings, entries)
    requires forall k | k in MaskAll(policy, Show(a), l, findings).1.entries :: k in entries
    ensures NothingAcross(policy, Show(a), l, findings)
    decreases |findings|
  {
    hide Good, Meaning, Labels, Across, Show, Known, PlainFindings, Issued, MarkOne, OriginOne, MaskOne, AllStand, Wrong, Inside, Safe, At;
    if findings != [] {
      var f, rest := findings[0], findings[1..];
      PlainRest(policy, findings);
      SafeRest(policy, findings, entries);
      MarkOneLaw(policy, a, l, o, f);
      KnownNext(policy, Show(a), l, o, f);
      MaskOneIssues(policy, Show(a), l, f);
      OneFinding(policy, a, l, o, f);
      var a', l', o' := MarkOne(policy, a, l, f), MaskOne(policy, Show(a), l, f).1, OriginOne(policy, l, o, f);
      MaskAllIssues(policy, Show(a'), l', rest);
      FindLaw(Show(a), f.original);
      if ActionFor(policy, f.ptype) == Mask && Find(Show(a), f.original).Some? {
        MoreEntries(a, o, l.entries, entries);
        SafeIsApart(a, o, Find(Show(a), f.original).value, f.original, entries);
      }
      assert FoundApart(policy, Show(a), f);
      SafeNothingAcross(policy, a', l', o', rest, entries);
    }
  }

  lemma {:induction false} MoreEntries(a: seq<Mark>, o: Origins, entries: map<string, string>, entries': map<string, string>)
    requires AllStand(a, o, entries) && forall k | k in entries :: k in entries'
    ensures AllStand(a, o, entries')
  {
  }

  lemma {:induction false} SafeMessage(policy: PrivacyPolicy, l: Ledger, o: Origins, batch: seq<Message>, i: nat)
    requires Known(l, o) && Issued(l) && PlainBatch(policy, batch) && i < |batch|
    requires SafeFindings(policy, batch[i].findings, MaskBatch(policy, l, batch).1.entries)
    ensures NothingAcross(policy, batch[i].text, LedgerBefore(policy, l, batch, i), batch[i].findings)
    decreases |batch|
  {
    hide Good, Meaning, Labels, Across, Known, PlainFindings, Issued, MaskAll, MarkAll, OriginAll, NothingAcross, AllStand, SafeFindings;
    var first := batch[0];
    var a := Chrs(first.text);
    assert Show(a) == first.text;
    PlainText(first.text, o);
    MarkAllLaw(policy, a, l, o, first.findings);
    MaskAllIssues(policy, first.text, l, first.findings);
    PlainBatchRest(policy, batch);
    var l1, o1 := MaskAll(policy, first.text, l, first.findings).1, OriginAll(policy, l, o, first.findings);
    if i == 0 {
      NoLabelsStand(a, o, l.entries);
      BatchIssues(policy, l1, batch[1..]);
      SafeNothingAcross(policy, a, l, o, first.findings, MaskBatch(policy, l, batch).1.entries);
    } else {
      SafeMessage(policy, l1, o1, batch[1..], i - 1);
    }
  }

  /** Masking then reconstructing is the identity on a message of a batch, whatever the order of the
      keys and however its findings overlap or repeat, when no text contains `<`, none of its findings
      is blocked, and no masked one contains `>` or is part of a placeholder of the batch. */
  lemma {:induction false} RoundTrip(policy: PrivacyPolicy, batch: seq<Message>, order: seq<string>, i: nat)
    requires PlainBatch(policy, batch) && i < |batch|
    requires var l := MaskBatch(policy, NO_ENTRIES, batch).1;
             SafeFindings(policy, batch[i].findings, l.entries) && ListsKeys(order, l.entries)
    ensures var (texts, l) := MaskBatch(policy, NO_ENTRIES, batch);
            |texts| == |batch| && Restore(texts[i], l.entries, order) == batch[i].text
  {
    hide MaskBatch, PlainBatch, SafeFindings, NothingAcross, LedgerBefore, Issued, Known, Restore, Whole;
    NothingKnown();
    NothingIssued();
    SafeMessage(policy, NO_ENTRIES, map[], batch, i);
    ComesBackExactly(policy, batch, i);
  }

  // ------------------------------------------------ what detectors can find

  predicate PlaceholderChar(c: char) {
    'A' <= c <= 'Z' || '0' <= c <= '9' || c == '_' || c == '<' || c == '>'
  }

  lemma {:induction false} PlaceholderChars(t: PrivacyType, n: nat)
    ensures forall c | c in Placeholder(t, n) :: PlaceholderChar(c)
  {
    hide Prefix, Decimal;
    PrefixLetters(t);
    DecimalDigits(n);
    forall c | c in Prefix(t) ensures 'A' <= c <= 'Z' {
      var i :| 0 <= i < |Prefix(t)| && Prefix(t)[i] == c;
    }
    forall c | c in Decimal(n) ensures '0' <= c <= '9' {
      var i :| 0 <= i < |Decimal(n)| && Decimal(n)[i] == c;
    }
    assert Placeholder(t, n) == "<" + Prefix(t) + "_" + Decimal(n) + ">";
  }

  lemma {:induction false} FoundWithin(k: string, i: nat, f: string, c: char)
    requires At(k, i, f) && c in f
    ensures c in k
  {
    var j :| 0 <= j < |f| && f[j] == c;
    AtChars(k, i, f);
    assert k[i + j] in k;
  }

  /** A finding with a character that no placeholder has, such as the `@` of an email address, a space,
      a dash or a Chinese character, is safe. */
  lemma {:induction false} ForeignIsSafe(f: string, c: char, l: Ledger)
    requires Issued(l) && c in f && !PlaceholderChar(c) && '>' !in f
    ensures Safe(f, l.entries)
  {
    hide Placeholder, PlaceholderChar;
    forall k | k in l.entries ensures !Contains(k, f) {
      var t, n: nat :| n < CountOf(l, t) && k == Placeholder(t, n);
      PlaceholderChars(t, n);
      forall i: nat ensures !At(k, i, f) {
        if At(k, i, f) { FoundWithin(k, i, f, c); }
      }
    }
  }

  function Ten(d: nat): nat {
    if d == 0 then 1 else 10 * Ten(d - 1)
  }

  lemma {:induction false} DecimalLength(n: nat, d: nat)
    requires n < Ten(d) && d >= 1
    ensures |Decimal(n)| <= d
  {
    if n >= 10 {
      DecimalLength(n / 10, d - 1);
    }
  }

  ghost predicate Number(f: string) {
    forall i | 0 <= i < |f| :: '0' <= f[i] <= '9'
  }

  lemma {:induction false} NumberInDecimal(t: PrivacyType, n: nat, i: nat, f: string)
    requires Number(f) && f != [] && At(Placeholder(t, n), i, f)
    ensures |f| <= |Decimal(n)|
  {
    hide Prefix, Decimal;
    PrefixLetters(t);
    AtChars(Placeholder(t, n), i, f);
    var k, p := Placeholder(t, n), |Prefix(t)|;
    forall j | 1 <= j < 1 + p ensures k[j] == Prefix(t)[j - 1] { }
    assert k[0] == '<' && k[1 + p] == '_' && k[|k| - 1] == '>';
    assert forall j | 0 <= j < |k| && '0' <= k[j] <= '9' :: 1 + p < j < |k| - 1;
    assert k[i + 0] == f[0] && k[i + (|f| - 1)] == f[|f| - 1];
  }

  /** A number with more digits than any placeholder of the batch is safe. */
  lemma {:induction false} NumberIsSafe(f: string, l: Ledger, d: nat)
    requires Issued(l) && Number(f) && |f| > d >= 1 && forall t :: CountOf(l, t) <= Ten(d)
    ensures Safe(f, l.entries)
  {
    hide Placeholder, Decimal, Ten;
    forall k | k in l.entries ensures !Contains(k, f) {
      var t, n: nat :| n < CountOf(l, t) && k == Placeholder(t, n);
      assert CountOf(l, t) <= Ten(d);
      DecimalLength(n, d);
      forall i: nat ensures !At(k, i, f) {
        if At(k, i, f) { NumberInDecimal(t, n, i, f); }
      }
    }
    forall i | 0 <= i < |f| ensures f[i] != '>' { }
  }

  /** So is any finding with such a run of digits in it, such as an id that ends in a letter. */
  lemma {:induction false} DigitRunIsSafe(f: string, i: nat, run: string, l: Ledger, d: nat)
    requires Issued(l) && At(f, i, run) && Number(run) && |run| > d >= 1 && '>' !in f
    requires forall t :: CountOf(l, t) <= Ten(d)
    ensures Safe(f, l.entries)
  {
    hide Ten, Issued, Number, At;
    NumberIsSafe(run, l, d);
    forall k | k in l.entries ensures !Contains(k, f) {
      forall j: nat ensures !At(k, j, f) {
        if At(k, j, f) { AtWithin(k, j, f, i, run); }
      }
    }
  }

  lemma {:induction false} AtWithin(k: string, j: nat, f: string, i: nat, run: string)
    requires At(k, j, f) && At(f, i, run)
    ensures At(k, j + i, run) && Contains(k, run)
  {
    AtChars(k, j, f);
    AtChars(f, i, run);
    forall n | 0 <= n < |run| ensures k[j + i + n] == run[n] {
      assert k[j + (i + n)] == f[i + n];
    }
    assert k[j + i..j + i + |run|] == run;
    assert At(k, j + i, run);
  }

  /** An id number that ends in X is safe in any batch with at most 10^16 findings of a kind. */
  lemma {:induction false} IdIsSafe(l: Ledger)
    requires Issued(l) && forall t :: CountOf(l, t) <= Ten(16)
    ensures Safe("11010519491231002X", l.entries)
  {
    hide Ten, Safe, Issued;
    var id, run := "11010519491231002X", "11010519491231002";
    assert At(id, 0, run) by { assert id[0..17] == run; }
    DigitRunIsSafe(id, 0, run, l, 16);
  }

  /** A phone number is safe in any batch with at most 10^10 findings of a kind. */
  lemma {:induction false} PhoneIsSafe(l: Ledger)
    requires Issued(l) && forall t :: CountOf(l, t) <= Ten(10)
    ensures Safe("13800138000", l.entries)
  {
    hide Ten, Safe, Issued;
    NumberIsSafe("13800138000", l, 10);
  }

  // ------------------------------------------------------- a finding that straddles

  lemma {:induction false} NotAt(text: string, j: nat, f: string, n: nat)
    requires n < |f| && (j + |f| <= |text| ==> text[j + n] != f[n])
    ensures !At(text, j, f)
  {
    if j + |f| <= |text| {
      assert text[j..j + |f|][n] == text[j + n];
    }
  }

  lemma {:induction false} IsAt(text: string, j: nat, f: string)
    requires j + |f| <= |text| && forall n | 0 <= n < |f| :: text[j + n] == f[n]
    ensures At(text, j, f)
  {
  }

  lemma {:induction false} FindsAt(text: string, f: string, i: nat)
    requires f != [] && At(text, i, f) && forall j: nat | j < i :: text[j] != f[0]
    ensures Find(text, f) == Some(i)
  {
    hide At, Find;
    FindLaw(text, f);
    AtEnds(text, i, f);
    forall j: nat | j < i ensures !At(text, j, f) { NotAt(text, j, f, 0); }
  }

  /** Findings in the order of the sort: the longest first. */
  predicate LongestFindingsFirst(findings: seq<Finding>) {
    forall i, j | 0 <= i < j < |findings| :: |findings[i].original| >= |findings[j].original|
  }

  /** Two rules with patterns of their own; both mask. */
  const TWO_RULES := PrivacyPolicy([PrivacyRule(Email, true, Mask), PrivacyRule(Name, true, Mask)], true)

  /** A finding that is part of no placeholder but contains `>` can be found from inside one to behind
      it. With the findings in the order of the sort, which is that of the rules for equal lengths, and
      with longer keys put back first, the message then does not come back. */
  lemma {:induction false} StraddlingFinding()
    ensures var m, findings := "aaa_0>_", [Finding(Email, "aaa"), Finding(Name, "0>_")];
            var (text, l) := MaskAll(TWO_RULES, m, NO_ENTRIES, findings);
            var order := ["<EMAIL_0>", "<NAME_0>"];
            && LongestFindingsFirst(findings) && Contains(m, "aaa") && Contains(m, "0>_")
            && text == "<EMAIL_<NAME_0>0>_" && l.entries == map["<EMAIL_0>" := "aaa", "<NAME_0>" := "0>_"]
            && ListsKeys(order, l.entries) && LongestFirst(order)
            && (forall k | k in l.entries :: !Contains(k, "aaa") && !Contains(k, "0>_"))
            && Restore(text, l.entries, order) == "<EMAIL_0>_0>_" != m
  {
    hide ReplaceFirst, Find, Restore, ReplaceAll, At, Contains;
    var m := "aaa_0>_";
    var first, second := Finding(Email, "aaa"), Finding(Name, "0>_");
    assert Decimal(0) == "0" && Placeholder(Email, 0) == "<EMAIL_0>" && Placeholder(Name, 0) == "<NAME_0>";
    StraddleMasks();
    StraddleParts();
    var l1 := MaskOne(TWO_RULES, m, NO_ENTRIES, first).1;
    assert MaskOne(TWO_RULES, m, NO_ENTRIES, first).0 == "<EMAIL_0>_0>_";
    assert [first, second][1..] == [second] && [second][1..] == [];
    assert CountOf(l1, Name) == 0;
    StraddleRestores(map["<EMAIL_0>" := "aaa", "<NAME_0>" := "0>_"]);
  }

  lemma {:induction false} StraddleParts()
    ensures Contains("aaa_0>_", "aaa") && Contains("aaa_0>_", "0>_")
    ensures !Contains("<EMAIL_0>", "aaa") && !Contains("<EMAIL_0>", "0>_")
    ensures !Contains("<NAME_0>", "aaa") && !Contains("<NAME_0>", "0>_")
  {
    hide At;
    IsAt("aaa_0>_", 0, "aaa");
    IsAt("aaa_0>_", 4, "0>_");
    forall j: nat ensures !At("<EMAIL_0>", j, "aaa") { NotAt("<EMAIL_0>", j, "aaa", 0); }
    forall j: nat ensures !At("<NAME_0>", j, "aaa") { NotAt("<NAME_0>", j, "aaa", 0); }
    forall j: nat ensures !At("<EMAIL_0>", j, "0>_") { NotAt("<EMAIL_0>", j, "0>_", 0); }
    forall j: nat ensures !At("<NAME_0>", j, "0>_") { NotAt("<NAME_0>", j, "0>_", 0); }
  }

  lemma {:induction false} StraddleMasks()
    ensures ReplaceFirst("aaa_0>_", "aaa", "<EMAIL_0>") == "<EMAIL_0>_0>_"
    ensures ReplaceFirst("<EMAIL_0>_0>_", "0>_", "<NAME_0>") == "<EMAIL_<NAME_0>0>_"
  {
    hide Find;
    var m, t := "aaa_0>_", "<EMAIL_0>_0>_";
    IsAt(m, 0, "aaa");
    FindsAt(m, "aaa", 0);
    IsAt(t, 7, "0>_");
    FindsAt(t, "0>_", 7);
    assert m[..0] + "<EMAIL_0>" + m[3..] == t;
    assert t[..7] + "<NAME_0>" + t[10..] == "<EMAIL_<NAME_0>0>_";
  }

  lemma {:induction false} StraddleRestores(entries: map<string, string>)
    requires entries == map["<EMAIL_0>" := "aaa", "<NAME_0>" := "0>_"]
    ensures Restore("<EMAIL_<NAME_0>0>_", entries, ["<EMAIL_0>", "<NAME_0>"]) == "<EMAIL_0>_0>_"
  {
    hide ReplaceAll, At;
    var t, k1, k2 := "<EMAIL_<NAME_0>0>_", "<EMAIL_0>", "<NAME_0>";
    forall j: nat ensures !At(t, j, k1) { NotAt(t, j, k1, if j == 7 then 1 else if j == 0 then 7 else 0); }
    ReplaceNone(t, k1, "aaa");
    IsAt(t, 7, k2);
    forall j: nat | j != 7 ensures !At(t, j, k2) { NotAt(t, j, k2, if j == 0 then 1 else 0); }
    ReplaceOnce(t, k2, "0>_", 7);
    assert t[..7] + "0>_" + t[15..] == "<EMAIL_0>_0>_";
    assert [k1, k2][1..] == [k2] && [k2][1..] == [];
    assert Restore(t, entries, [k2]) == ReplaceAll(t, k2, "0>_");
  }
}
