/** Reconstruction with longer keys first, in terms of where findings are found: how far each
    placeholder reaches in the masked text is followed from finding to finding. */
module PrivacyLengthSort {
  import opened Wrappers
  import opened PrivacyEngine
  import opened PrivacyPlaceholders
  import opened PrivacyMarks
  import opened PrivacyRoundTrip
  import opened PrivacyFindings

  /** From its `<` to behind what is left of its `>`, with all that was put in between. */
  datatype Stretch = Stretch(from: nat, to: nat)

  /** Where a stretch is once a placeholder of `put` characters has replaced `cut` characters at `p`. A
      stretch that is only partly replaced reaches to the end of the new placeholder. */
  function Moved(s: Stretch, p: nat, cut: nat, put: nat): Stretch {
    if s.to <= p then s
    else if p <= s.from then Stretch(if s.from >= cut then s.from - cut + put else s.from, if s.to >= cut then s.to - cut + put else s.to)
    else Stretch(s.from, if s.to >= p + cut then s.to - cut + put else p + put)
  }

  function StretchesAfter(st: map<string, Stretch>, p: nat, cut: nat, key: string): map<string, Stretch> {
    (map k | k in st :: Moved(st[k], p, cut, |key|))[key := Stretch(p, p + |key|)]
  }

  /** Nothing blocked is found, and whenever a finding is found from inside the stretch of an earlier
      placeholder, its own placeholder is the longer one. */
  ghost predicate LongerAcross(policy: PrivacyPolicy, text: string, l: Ledger, st: map<string, Stretch>, findings: seq<Finding>)
    decreases |findings|
  {
    findings != [] ==>
      && LongerPut(policy, text, l, st, findings[0])
      && var (t, m) := MaskOne(policy, text, l, findings[0]);
         LongerAcross(policy, t, m, StretchesNext(policy, text, l, st, findings[0]), findings[1..])
  }

  ghost predicate LongerThanCovering(st: map<string, Stretch>, p: nat, key: string) {
    forall k | k in st && st[k].from < p < st[k].to :: |k| < |key|
  }

  ghost predicate LongerPut(policy: PrivacyPolicy, text: string, l: Ledger, st: map<string, Stretch>, f: Finding) {
    var action, p := ActionFor(policy, f.ptype), Find(text, f.original);
    || action == Allow || p.None?
    || (action == Mask && LongerThanCovering(st, p.value, KeyFor(policy, l, f)))
  }

  function StretchesNext(policy: PrivacyPolicy, text: string, l: Ledger, st: map<string, Stretch>, f: Finding): map<string, Stretch> {
    match Find(text, f.original)
    case None => st
    case Some(p) =>
      if ActionFor(policy, f.ptype) == Allow then st else StretchesAfter(st, p, |f.original|, KeyFor(policy, l, f))
  }

  // ------------------------------------------------------- how far reading goes

  /** How many marks are passed in reading the next `n` characters of the meaning. */
  function Span(a: seq<Mark>, n: nat, o: Origins): (k: nat)
    ensures k <= |a|
    decreases |a|
  {
    if n == 0 || a == [] then 0
    else
      match a[0]
      case Chr(_) => 1 + Span(a[1..], n - 1, o)
      case Open(key) =>
        var f := |Origin(o, key)|;
        1 + Span(a[1..], TailLength(key) + if n > f then n - f else 0, o)
  }

  lemma {:induction false} ChrsSpan(s: string, w: seq<Mark>, n: nat, o: Origins)
    ensures Span(Chrs(s) + w, n, o) == if n <= |s| then n else |s| + Span(w, n - |s|, o)
    decreases |s|
  {
    if s == [] {
      assert Chrs(s) + w == w;
    } else if n > 0 {
      ChrsStep(s, w);
      hide Chrs;
      ChrsSpan(s[1..], w, n - 1, o);
    }
  }

  /** The end of a reading, before and after a placeholder is put in at `|u|`. */
  function EndAfter(end: nat, p: nat, cut: nat, put: nat): nat {
    if end <= p then end else if end >= p + cut then end - cut + put else p + put
  }

  lemma {:induction false} SpanAtPut(f: string, key: string, w: seq<Mark>, n: nat, o: Origins)
    requires key in o && o[key] == f && f != [] && key != []
    ensures Span(Opened(key) + w, n, o) == EndAfter(Span(Chrs(f) + w, n, o), 0, |f|, |key|)
    ensures key in Uses(Opened(key) + w, n, o) ==> Span(Chrs(f) + w, n, o) > 0
    ensures Span(Chrs(f) + w, n, o) > 0 ==> key in Uses(Opened(key) + w, n, o)
  {
    hide Chrs;
    OpenedStep(key, w);
    hide Opened;
    ChrsSpan(f, w, n, o);
    var more := if n > |f| then n - |f| else 0;
    ChrsSpan(key[1..], w, TailLength(key) + more, o);
  }

  lemma {:induction false} SpanSwap(u: seq<Mark>, f: string, key: string, w: seq<Mark>, n: nat, o: Origins)
    requires key in o && o[key] == f && f != [] && key != [] && key !in Labels(u)
    ensures var x, y := u + (Chrs(f) + w), u + (Opened(key) + w);
            && Span(y, n, o) == EndAfter(Span(x, n, o), |u|, |f|, |key|)
            && (key in Uses(y, n, o) <==> |u| < Span(x, n, o))
    decreases |u|
  {
    hide Chrs, Opened, Labels, Origin;
    var x, y := Chrs(f) + w, Opened(key) + w;
    if u == [] {
      assert u + x == x && u + y == y;
      SpanAtPut(f, key, w, n, o);
    } else if n > 0 {
      ConcatStep(u, x);
      ConcatStep(u, y);
      LabelsOfHead(u);
      match u[0] {
        case Chr(_) => SpanSwap(u[1..], f, key, w, n - 1, o);
        case Open(k) =>
          var g := |Origin(o, k)|;
          SpanSwap(u[1..], f, key, w, TailLength(k) + if n > g then n - g else 0, o);
      }
    }
  }

  // ------------------------------------------------------------ stretches of labels

  function StretchAt(a: seq<Mark>, i: nat, key: string, o: Origins): Stretch
    requires i < |a|
  {
    Stretch(i, i + 1 + Span(a[i + 1..], TailLength(key), o))
  }

  ghost predicate Tracks(st: map<string, Stretch>, a: seq<Mark>, o: Origins) {
    && st.Keys == Labels(a)
    && forall i | 0 <= i < |a| && a[i].Open? :: a[i].key in st && st[a[i].key] == StretchAt(a, i, a[i].key, o)
  }

  lemma {:induction false} TrackedLabels(st: map<string, Stretch>, a: seq<Mark>, o: Origins)
    requires Tracks(st, a, o)
    ensures st.Keys == Labels(a)
  {
    hide Labels;
  }

  lemma {:induction false} KeysAfter(st: map<string, Stretch>, p: nat, cut: nat, key: string)
    ensures StretchesAfter(st, p, cut, key).Keys == st.Keys + {key}
  {
  }

  lemma {:induction false} BeforePut(a: seq<Mark>, p: nat, f: string, key: string, i: nat, o: Origins)
    requires Good(PutIn(a, p, f, key), o) && Good(a, o) && key in o && o[key] == f && f != [] && key != [] && key !in Labels(a)
    requires p + |f| <= |a| && a == a[..p] + (Chrs(f) + a[p + |f|..]) && i < p && a[i].Open?
    ensures var z, a' := a[i].key, PutIn(a, p, f, key);
            && a'[i] == a[i] && StretchAt(a', i, z, o) == Moved(StretchAt(a, i, z, o), p, |f|, |key|)
            && (key in Across(a', z, o) <==> p < StretchAt(a, i, z, o).to)
  {
    hide Good, Meaning, Labels, Uses, Across, Span, Chrs, Opened;
    var z, a', w := a[i].key, PutIn(a, p, f, key), a[p + |f|..];
    var u := a[i + 1..p];
    assert a[..p][i + 1..] == u;
    AfterCut(a[..p], i + 1, Chrs(f) + w);
    AfterCut(a[..p], i + 1, Opened(key) + w);
    assert a[i + 1..] == u + (Chrs(f) + w) && a'[i + 1..] == u + (Opened(key) + w);
    NoLabelInside(a, i + 1, p, key);
    SpanSwap(u, f, key, w, TailLength(z), o);
    AcrossOf(a', i, z, o);
  }

  lemma {:induction false} AfterCut(u: seq<Mark>, i: nat, x: seq<Mark>)
    requires i <= |u|
    ensures (u + x)[i..] == u[i..] + x
  {
  }

  lemma {:induction false} NoLabelInside(a: seq<Mark>, i: nat, j: nat, key: string)
    requires i <= j <= |a| && key !in Labels(a)
    ensures key !in Labels(a[i..j])
  {
    hide Labels;
    LabelsConcat(a[..i], a[i..j]);
    LabelsConcat(a[..i] + a[i..j], a[j..]);
    assert a == a[..i] + a[i..j] + a[j..];
  }

  lemma {:induction false} BehindPut(a: seq<Mark>, p: nat, f: string, key: string, i: nat, o: Origins)
    requires Good(PutIn(a, p, f, key), o) && Good(a, o) && key != [] && key !in Labels(a)
    requires p + |f| <= i < |a| && a[i].Open?
    ensures var z, a', i' := a[i].key, PutIn(a, p, f, key), i - |f| + |key|;
            && i' < |a'| && a'[i'] == a[i] && StretchAt(a', i', z, o) == Moved(StretchAt(a, i, z, o), p, |f|, |key|)
            && key !in Across(a', z, o) && !(StretchAt(a, i, z, o).from < p)
  {
    hide Good, Meaning, Labels, Uses, Across, Span, Opened;
    var z, a', i' := a[i].key, PutIn(a, p, f, key), i - |f| + |key|;
    BehindSame(a, p, f, key, i);
    assert a'[i'] == a'[i'..][0] && a[i] == a[i..][0];
    assert a'[i' + 1..] == a'[i'..][1..] && a[i + 1..] == a[i..][1..];
    AcrossOf(a, i, z, o);
    AcrossOf(a', i', z, o);
    AcrossAreLabels(a, z, o);
  }

  lemma {:induction false} BehindSame(a: seq<Mark>, p: nat, f: string, key: string, i: nat)
    requires key != [] && p + |f| <= i <= |a|
    ensures |PutIn(a, p, f, key)| == |a| - |f| + |key| && PutIn(a, p, f, key)[i - |f| + |key|..] == a[i..]
  {
  }

  lemma {:induction false} PutItself(a: seq<Mark>, p: nat, f: string, key: string, o: Origins)
    requires Good(PutIn(a, p, f, key), o) && key != [] && p + |f| <= |a|
    ensures var a' := PutIn(a, p, f, key);
            p < |a'| && a'[p] == Open(key) && StretchAt(a', p, key, o) == Stretch(p, p + |key|) && Across(a', key, o) == {}
  {
    hide Good, Meaning, Labels, Uses, Across;
    var a', w := PutIn(a, p, f, key), a[p + |f|..];
    assert a'[p..] == Opened(key) + w;
    OpenedStep(key, w);
    assert a'[p + 1..] == a'[p..][1..];
    ChrsSpan(key[1..], w, |key| - 1, o);
    NoneAcrossWhole(a', p, key, w, o);
  }

  /** Every label of the new text is the new one, or an old one in front of it or behind. */
  lemma {:induction false} PutTracks(st: map<string, Stretch>, a: seq<Mark>, p: nat, f: string, key: string, o: Origins)
    requires OriginsOk(o) && key in o && o[key] == f && Good(a, o) && key !in Labels(a) && At(Show(a), p, f) && Tracks(st, a, o)
    requires f == [] ==> p == 0
    ensures Tracks(StretchesAfter(st, p, |f|, key), PutIn(a, p, f, key), o)
  {
    hide Good, Meaning, Labels, Uses, Across, Span, At, Show, Shaped, Moved, StretchAt, StretchesAfter, PutIn;
    PutInLaw(a, p, f, key, o);
    var a', st' := PutIn(a, p, f, key), StretchesAfter(st, p, |f|, key);
    forall i | 0 <= i < |a'| && a'[i].Open? ensures a'[i].key in st' && st'[a'[i].key] == StretchAt(a', i, a'[i].key, o) {
      OneTracked(st, a, p, f, key, i, o);
    }
    TrackedLabels(st, a, o);
    KeysAfter(st, p, |f|, key);
  }

  lemma {:induction false} OneTracked(st: map<string, Stretch>, a: seq<Mark>, p: nat, f: string, key: string, i: nat, o: Origins)
    requires OriginsOk(o) && key in o && o[key] == f && Good(a, o) && key !in Labels(a) && At(Show(a), p, f) && Tracks(st, a, o)
    requires (f == [] ==> p == 0) && i < |PutIn(a, p, f, key)| && PutIn(a, p, f, key)[i].Open?
    ensures var a', st' := PutIn(a, p, f, key), StretchesAfter(st, p, |f|, key);
            a'[i].key in st' && st'[a'[i].key] == StretchAt(a', i, a'[i].key, o)
  {
    hide Good, Meaning, Labels, Uses, Across, Span, At, Show, Shaped, Moved, StretchAt, PutIn;
    PutInLaw(a, p, f, key, o);
    assert Shaped(key);
    ShapedStart(key);
    PutPlaces(a, p, f, key, i);
    if i < p {
      LabelAt(a, i);
      BeforePut(a, p, f, key, i, o);
    } else if i == p {
      PutItself(a, p, f, key, o);
    } else if i >= p + |key| {
      LabelAt(a, i - |key| + |f|);
      BehindPut(a, p, f, key, i - |key| + |f|, o);
    }
  }

  lemma {:induction false} PutPlaces(a: seq<Mark>, p: nat, f: string, key: string, i: nat)
    requires p + |f| <= |a| && key != [] && i < |PutIn(a, p, f, key)|
    ensures var a' := PutIn(a, p, f, key);
            && (i < p ==> a'[i] == a[i])
            && (p < i < p + |key| ==> a'[i].Chr?)
            && (i >= p + |key| ==> i - |key| + |f| < |a| && a'[i] == a[i - |key| + |f|])
            && (i == p ==> a'[i] == Open(key))
  {
  }

  /** The labels that the new placeholder was put across are those whose stretch covers its place. */
  lemma {:induction false} PutCovers(st: map<string, Stretch>, a: seq<Mark>, p: nat, f: string, key: string, o: Origins, z: string)
    requires OriginsOk(o) && key in o && o[key] == f && Good(a, o) && key !in Labels(a) && At(Show(a), p, f) && Tracks(st, a, o)
    requires z in Labels(a) && (f == [] ==> p == 0)
    ensures key in Across(PutIn(a, p, f, key), z, o) <==> st[z].from < p < st[z].to
  {
    hide Good, Meaning, Labels, Uses, Across, Span, At, Show, Shaped, Moved;
    PutInLaw(a, p, f, key, o);
    assert Shaped(key);
    ShapedStart(key);
    var i := LabelPosition(a, z, o);
    if i < p {
      BeforePut(a, p, f, key, i, o);
    } else {
      AfterPut(a, p, f, i);
      BehindPut(a, p, f, key, i, o);
    }
  }

  // ------------------------------------------------------------- one message

  /** Something is wrong for good: a blocked label, or a placeholder put across one that is as long. */
  ghost predicate Lost(a: seq<Mark>, o: Origins) {
    exists x :: x in Labels(a) && LostLabel(a, o, x)
  }

  ghost predicate LostLabel(a: seq<Mark>, o: Origins, x: string) {
    Blocked(x) || exists y :: y in Across(a, x, o) && |y| <= |x|
  }

  lemma {:induction false} OutgrownOnePut(st: map<string, Stretch>, a: seq<Mark>, p: nat, f: string, key: string, o: Origins,
                                          entries: map<string, string>)
    requires OriginsOk(o) && key in o && o[key] == f && Good(a, o) && key !in Labels(a) && At(Show(a), p, f) && Tracks(st, a, o)
    requires Outgrown(a, o, entries) && (f == [] ==> p == 0) && key in entries && LongerThanCovering(st, p, key)
    ensures Outgrown(PutIn(a, p, f, key), o, entries)
  {
    hide Good, Meaning, Labels, Across, Show, At, Shaped, Blocked, PutIn, Tracks;
    var a' := PutIn(a, p, f, key);
    PutInLaw(a, p, f, key, o);
    assert Shaped(key);
    ShapedStart(key);
    PutItself(a, p, f, key, o);
    TrackedLabels(st, a, o);
    forall x, y | x in Labels(a') && y in Across(a', x, o) ensures |y| > |x| {
      if y == key {
        PutCovers(st, a, p, f, key, o, x);
      } else {
        assert y in Across(a, x, o);
      }
    }
  }

  lemma {:induction false} LostOnePut(st: map<string, Stretch>, a: seq<Mark>, p: nat, f: string, key: string, o: Origins)
    requires OriginsOk(o) && key in o && o[key] == f && Good(a, o) && key !in Labels(a) && At(Show(a), p, f) && Tracks(st, a, o)
    requires (f == [] ==> p == 0) && (Blocked(key) || !LongerThanCovering(st, p, key))
    ensures Lost(PutIn(a, p, f, key), o)
  {
    hide Good, Meaning, Labels, Across, Show, At, Shaped, Blocked, PutIn, Tracks;
    var a' := PutIn(a, p, f, key);
    PutInLaw(a, p, f, key, o);
    if Blocked(key) {
      assert LostLabel(a', o, key);
    } else {
      var z :| z in st && st[z].from < p < st[z].to && |z| >= |key|;
      TrackedLabels(st, a, o);
      PutCovers(st, a, p, f, key, o, z);
      assert LostLabel(a', o, z);
    }
  }

  lemma {:induction false} LaterOutgrown(st: map<string, Stretch>, a: seq<Mark>, o: Origins, o': Origins,
                                         entries: map<string, string>, entries': map<string, string>)
    requires Good(a, o) && Extends(o, o') && forall k | k in entries :: k in entries'
    ensures Outgrown(a, o, entries) ==> Outgrown(a, o', entries')
    ensures Lost(a, o) ==> Lost(a, o')
    ensures Tracks(st, a, o) ==> Tracks(st, a, o')
  {
    hide Good, Meaning, Labels, Across, Blocked, Span;
    MoreOrigins(a, o, o');
    if Lost(a, o) {
      var x :| x in Labels(a) && LostLabel(a, o, x);
      assert LostLabel(a, o', x);
    }
    forall i | 0 <= i < |a| && a[i].Open? ensures StretchAt(a, i, a[i].key, o') == StretchAt(a, i, a[i].key, o) {
      GoodSuffix(a, i + 1, o);
      SpanMore(a[i + 1..], TailLength(a[i].key), o, o');
    }
  }

  lemma {:induction false} SpanMore(a: seq<Mark>, n: nat, o: Origins, o': Origins)
    requires Good(a, o) && Extends(o, o')
    ensures Span(a, n, o') == Span(a, n, o)
    decreases |a|
  {
    hide Meaning, Labels;
    if n > 0 && a != [] {
      match a[0] {
        case Chr(_) => SpanMore(a[1..], n - 1, o, o');
        case Open(key) =>
          var f := |Origin(o, key)|;
          SpanMore(a[1..], TailLength(key) + if n > f then n - f else 0, o, o');
      }
    }
  }

  lemma {:induction false} EmptyIsFirst(text: string)
    ensures Find(text, []) == Some(0)
  {
  }

  lemma {:induction false} OneSortedFinding(policy: PrivacyPolicy, st: map<string, Stretch>, a: seq<Mark>, l: Ledger, o: Origins, f: Finding)
    requires Known(l, o) && Issued(l) && Good(a, o) && Outgrown(a, o, l.entries) && Tracks(st, a, o)
    requires ActionFor(policy, f.ptype) != Allow ==> '<' !in f.original
    ensures var a', o', l' := MarkOne(policy, a, l, f), OriginOne(policy, l, o, f), MaskOne(policy, Show(a), l, f).1;
            && Tracks(StretchesNext(policy, Show(a), l, st, f), a', o')
            && (if LongerPut(policy, Show(a), l, st, f) then Outgrown(a', o', l'.entries) else Lost(a', o'))
  {
    hide Good, Meaning, Labels, Across, Show, At, Find, Shaped, IssuedLabel, Placeholder, BlockedPlaceholder, ActionFor, ReplaceFirst,
      Issued, Outgrown, Lost, PutIn, Tracks, StretchesAfter, LongerThanCovering, Known, KeyFor, OriginsOk;
    if ActionFor(policy, f.ptype) != Allow && Find(Show(a), f.original).Some? {
      OneSortedPut(policy, st, a, l, o, f);
    } else {
      KnownNext(policy, Show(a), l, o, f);
      MaskOneIssues(policy, Show(a), l, f);
      LaterOutgrown(st, a, o, OriginOne(policy, l, o, f), l.entries, MaskOne(policy, Show(a), l, f).1.entries);
    }
  }

  lemma {:induction false} OneSortedPut(policy: PrivacyPolicy, st: map<string, Stretch>, a: seq<Mark>, l: Ledger, o: Origins, f: Finding)
    requires Known(l, o) && Issued(l) && Good(a, o) && Outgrown(a, o, l.entries) && Tracks(st, a, o) && '<' !in f.original
    requires ActionFor(policy, f.ptype) != Allow && Find(Show(a), f.original).Some?
    ensures var p, key := Find(Show(a), f.original).value, KeyFor(policy, l, f);
            var a', o', l' := PutIn(a, p, f.original, key), OriginOne(policy, l, o, f), MaskOne(policy, Show(a), l, f).1;
            && Tracks(StretchesAfter(st, p, |f.original|, key), a', o')
            && (if ActionFor(policy, f.ptype) == Mask && LongerThanCovering(st, p, key) then Outgrown(a', o', l'.entries) else Lost(a', o'))
  {
    hide Good, Meaning, Labels, Across, Show, At, Find, Shaped, IssuedLabel, Placeholder, BlockedPlaceholder, ActionFor, ReplaceFirst,
      Issued, Outgrown, Lost, PutIn, Tracks, StretchesAfter, LongerThanCovering;
    var o', l' := OriginOne(policy, l, o, f), MaskOne(policy, Show(a), l, f).1;
    KnownNext(policy, Show(a), l, o, f);
    MaskOneIssues(policy, Show(a), l, f);
    LaterOutgrown(st, a, o, o', l.entries, l'.entries);
    var p, key := Find(Show(a), f.original).value, KeyFor(policy, l, f);
    FindLaw(Show(a), f.original);
    EmptyIsFirst(Show(a));
    MoreOrigins(a, o, o');
    LabelsKnown(a, o);
    PutTracks(st, a, p, f.original, key, o');
    if ActionFor(policy, f.ptype) == Mask && LongerThanCovering(st, p, key) {
      OutgrownOnePut(st, a, p, f.original, key, o', l'.entries);
    } else {
      if ActionFor(policy, f.ptype) == Block {
        assert Blocked(key);
      }
      LostOnePut(st, a, p, f.original, key, o');
    }
  }

  lemma {:induction false} LostStays(policy: PrivacyPolicy, a: seq<Mark>, l: Ledger, o: Origins, findings: seq<Finding>)
    requires Known(l, o) && Good(a, o) && PlainFindings(policy, findings) && Lost(a, o)
    ensures Lost(MarkAll(policy, a, l, findings), OriginAll(policy, l, o, findings))
  {
    hide Good, Meaning, Labels, Across, Show, Known, PlainFindings, MarkAll, OriginAll, MaskAll, Blocked;
    MarkAllLaw(policy, a, l, o, findings);
    var x :| x in Labels(a) && LostLabel(a, o, x);
    assert LostLabel(MarkAll(policy, a, l, findings), OriginAll(policy, l, o, findings), x);
  }

  lemma {:induction false} AllSortedFindings(policy: PrivacyPolicy, st: map<string, Stretch>, a: seq<Mark>, l: Ledger, o: Origins,
                                             findings: seq<Finding>)
    requires Known(l, o) && Issued(l) && Good(a, o) && PlainFindings(policy, findings) && Outgrown(a, o, l.entries) && Tracks(st, a, o)
    ensures var a', o' := MarkAll(policy, a, l, findings), OriginAll(policy, l, o, findings);
            if LongerAcross(policy, Show(a), l, st, findings) then Outgrown(a', o', MaskAll(policy, Show(a), l, findings).1.entries)
            else Lost(a', o')
    decreases |findings|
  {
    hide Good, Meaning, Labels, Across, Show, Known, PlainFindings, Issued, MarkOne, OriginOne, MaskOne, LongerPut, Outgrown, Lost,
      Tracks, StretchesNext;
    if findings != [] {
      var f, rest := findings[0], findings[1..];
      PlainRest(policy, findings);
      MarkOneLaw(policy, a, l, o, f);
      KnownNext(policy, Show(a), l, o, f);
      MaskOneIssues(policy, Show(a), l, f);
      OneSortedFinding(policy, st, a, l, o, f);
      var a', l', o' := MarkOne(policy, a, l, f), MaskOne(policy, Show(a), l, f).1, OriginOne(policy, l, o, f);
      if LongerPut(policy, Show(a), l, st, f) {
        AllSortedFindings(policy, StretchesNext(policy, Show(a), l, st, f), a', l', o', rest);
      } else {
        LostStays(policy, a', l', o', rest);
      }
    }
  }

  // ---------------------------------------------------------------- a batch

  lemma {:induction false} NoLabelsTracked(a: seq<Mark>, o: Origins, entries: map<string, string>)
    requires Labels(a) == {}
    ensures Tracks(map[], a, o) && Outgrown(a, o, entries)
  {
    forall i | 0 <= i < |a| ensures a[i].Chr? {
      if a[i].Open? { LabelAt(a, i); }
    }
  }

  lemma {:induction false} BatchSorted(policy: PrivacyPolicy, l: Ledger, o: Origins, batch: seq<Message>, i: nat)
    requires Known(l, o) && Issued(l) && PlainBatch(policy, batch) && i < |batch|
    ensures var last, a := MaskBatch(policy, l, batch).1, BatchMarks(policy, l, batch);
            var o' := BatchOrigins(policy, l, o, batch);
            && |a| == |batch| && Issued(last)
            && (if LongerAcross(policy, batch[i].text, LedgerBefore(policy, l, batch, i), map[], batch[i].findings)
                then Outgrown(a[i], o', last.entries) else Lost(a[i], o'))
    decreases |batch|
  {
    hide Good, Meaning, Labels, Across, Known, PlainFindings, Issued, MaskAll, MarkAll, OriginAll, LongerAcross, Outgrown, Lost, Tracks;
    OriginsStay(policy, l, o, batch);
    BatchIssues(policy, l, batch);
    var first := batch[0];
    var a := Chrs(first.text);
    assert Show(a) == first.text;
    PlainText(first.text, o);
    MarkAllLaw(policy, a, l, o, first.findings);
    MaskAllIssues(policy, first.text, l, first.findings);
    PlainBatchRest(policy, batch);
    var l1, o1 := MaskAll(policy, first.text, l, first.findings).1, OriginAll(policy, l, o, first.findings);
    if i == 0 {
      NoLabelsTracked(a, o, l.entries);
      AllSortedFindings(policy, map[], a, l, o, first.findings);
      OriginsStay(policy, l1, o1, batch[1..]);
      BatchIssues(policy, l1, batch[1..]);
      LaterOutgrown(map[], MarkAll(policy, a, l, first.findings), o1, BatchOrigins(policy, l1, o1, batch[1..]),
        l1.entries, MaskBatch(policy, l1, batch[1..]).1.entries);
    } else {
      BatchSorted(policy, l1, o1, batch[1..], i - 1);
    }
  }

  lemma {:induction false} LostIsNotOutgrown(a: seq<Mark>, o: Origins, l: Ledger)
    requires Issued(l) && Lost(a, o)
    ensures !Outgrown(a, o, l.entries)
  {
    hide Labels, Across, Issued, Blocked;
    var x :| x in Labels(a) && LostLabel(a, o, x);
    if Blocked(x) { BlockedHasNoEntry(l, x); }
  }

  /** Masking, with the findings in any order, then reconstructing with longer keys first gives a message
      of a batch back if and only if nothing blocked is found and every finding found from inside the
      stretch of an earlier placeholder gets a longer placeholder than that one. */
  lemma {:induction false} SortComesBackExactly(policy: PrivacyPolicy, batch: seq<Message>, i: nat)
    requires PlainBatch(policy, batch) && i < |batch|
    ensures var (texts, l) := MaskBatch(policy, NO_ENTRIES, batch);
            && |texts| == |batch|
            && ((forall order | ListsKeys(order, l.entries) && LongestFirst(order) ::
                   Restore(texts[i], l.entries, order) == batch[i].text)
                <==> LongerAcross(policy, batch[i].text, LedgerBefore(policy, NO_ENTRIES, batch, i), map[], batch[i].findings))
  {
    hide MaskBatch, BatchMarks, BatchOrigins, PlainBatch, Good, Meaning, Show, OriginsOk, Restore, LongerAcross, Outgrown, Lost,
      LedgerBefore, Issued, ListsKeys, LongestFirst;
    var a, o := Labelled(policy, batch, i);
    var l := MaskBatch(policy, NO_ENTRIES, batch).1;
    NothingKnown();
    NothingIssued();
    BatchSorted(policy, NO_ENTRIES, map[], batch, i);
    LongestFirstOrder(policy, batch, i);
    if Lost(a, o) { LostIsNotOutgrown(a, o, l); }
  }
}
