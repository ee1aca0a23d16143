/** When reconstruction undoes the masking of a batch: exactly, for every order of the keys, for the
    orders that take longer keys first, and in terms of where findings were found. */
module PrivacyRoundTrip {
  import opened Wrappers
  import opened PrivacyEngine
  import opened PrivacyPlaceholders
  import opened PrivacyMarks

  // --------------------------------------------------- masking, with labels

  function KeyFor(policy: PrivacyPolicy, l: Ledger, f: Finding): string {
    if ActionFor(policy, f.ptype) == Block then BlockedPlaceholder(f.ptype, CountOf(l, f.ptype))
    else Placeholder(f.ptype, CountOf(l, f.ptype))
  }

  function PutIn(a: seq<Mark>, p: nat, f: string, key: string): seq<Mark> {
    if p + |f| <= |a| && key != [] then a[..p] + (Opened(key) + a[p + |f|..]) else a
  }

  function MarkOne(policy: PrivacyPolicy, a: seq<Mark>, l: Ledger, f: Finding): seq<Mark> {
    if ActionFor(policy, f.ptype) == Allow then a
    else
      match Find(Show(a), f.original)
      case None => a
      case Some(p) => PutIn(a, p, f.original, KeyFor(policy, l, f))
  }

  function MarkAll(policy: PrivacyPolicy, a: seq<Mark>, l: Ledger, findings: seq<Finding>): seq<Mark>
    decreases |findings|
  {
    if findings == [] then a
    else MarkAll(policy, MarkOne(policy, a, l, findings[0]), MaskOne(policy, Show(a), l, findings[0]).1, findings[1..])
  }

  function OriginOne(policy: PrivacyPolicy, l: Ledger, o: Origins, f: Finding): Origins {
    if ActionFor(policy, f.ptype) == Allow then o else o[KeyFor(policy, l, f) := f.original]
  }

  function OriginAll(policy: PrivacyPolicy, l: Ledger, o: Origins, findings: seq<Finding>): Origins
    decreases |findings|
  {
    if findings == [] then o
    else OriginAll(policy, MaskOne(policy, [], l, findings[0]).1, OriginOne(policy, l, o, findings[0]), findings[1..])
  }

  function BatchMarks(policy: PrivacyPolicy, l: Ledger, batch: seq<Message>): seq<seq<Mark>>
    decreases |batch|
  {
    if batch == [] then []
    else
      var a := Chrs(batch[0].text);
      [MarkAll(policy, a, l, batch[0].findings)]
      + BatchMarks(policy, MaskAll(policy, batch[0].text, l, batch[0].findings).1, batch[1..])
  }

  function BatchOrigins(policy: PrivacyPolicy, l: Ledger, o: Origins, batch: seq<Message>): Origins
    decreases |batch|
  {
    if batch == [] then o
    else
      BatchOrigins(policy, MaskAll(policy, batch[0].text, l, batch[0].findings).1,
        OriginAll(policy, l, o, batch[0].findings), batch[1..])
  }

  /** The label was issued by a counter, below its present value. */
  ghost predicate IssuedLabel(l: Ledger, k: string) {
    exists t, n: nat :: n < CountOf(l, t) && (k == Placeholder(t, n) || k == BlockedPlaceholder(t, n))
  }

  ghost predicate Known(l: Ledger, o: Origins) {
    OriginsOk(o) && Agree(l.entries, o) && forall k | k in o :: IssuedLabel(l, k)
  }

  ghost predicate PlainFindings(policy: PrivacyPolicy, findings: seq<Finding>) {
    forall i | 0 <= i < |findings| :: ActionFor(policy, findings[i].ptype) != Allow ==> '<' !in findings[i].original
  }

  /** No text has a `<`, and so no finding in it has. */
  ghost predicate PlainBatch(policy: PrivacyPolicy, batch: seq<Message>) {
    forall i | 0 <= i < |batch| :: '<' !in batch[i].text && PlainFindings(policy, batch[i].findings)
  }

  ghost predicate Extends(o: Origins, o': Origins) {
    forall k | k in o :: k in o' && o'[k] == o[k]
  }

  lemma {:induction false} KeyIsNew(policy: PrivacyPolicy, l: Ledger, f: Finding)
    ensures Shaped(KeyFor(policy, l, f)) && !IssuedLabel(l, KeyFor(policy, l, f))
  {
    hide Placeholder, BlockedPlaceholder, ActionFor;
    var key, m := KeyFor(policy, l, f), CountOf(l, f.ptype);
    PlaceholderShaped(f.ptype, m);
    BlockedShaped(f.ptype, m);
    forall t, n: nat | n < CountOf(l, t) ensures key != Placeholder(t, n) && key != BlockedPlaceholder(t, n) {
      if key == Placeholder(t, n) {
        BlockedIsNoPlaceholder(f.ptype, m, t, n);
        PlaceholderInjective(f.ptype, m, t, n);
      }
      if key == BlockedPlaceholder(t, n) {
        BlockedIsNoPlaceholder(t, n, f.ptype, m);
        BlockedInjective(f.ptype, m, t, n);
      }
    }
  }

  lemma {:induction false} StillIssued(policy: PrivacyPolicy, text: string, l: Ledger, f: Finding, k: string)
    requires IssuedLabel(l, k) || (ActionFor(policy, f.ptype) != Allow && k == KeyFor(policy, l, f))
    ensures IssuedLabel(MaskOne(policy, text, l, f).1, k)
  {
    hide Placeholder, BlockedPlaceholder, ActionFor, ReplaceFirst;
    var l' := MaskOne(policy, text, l, f).1;
    if IssuedLabel(l, k) {
      var t, n: nat :| n < CountOf(l, t) && (k == Placeholder(t, n) || k == BlockedPlaceholder(t, n));
      assert n < CountOf(l', t);
    } else {
      assert CountOf(l, f.ptype) < CountOf(l', f.ptype);
    }
  }

  lemma {:induction false} KnownNext(policy: PrivacyPolicy, text: string, l: Ledger, o: Origins, f: Finding)
    requires Known(l, o) && (ActionFor(policy, f.ptype) != Allow ==> '<' !in f.original)
    ensures Known(MaskOne(policy, text, l, f).1, OriginOne(policy, l, o, f)) && Extends(o, OriginOne(policy, l, o, f))
    ensures ActionFor(policy, f.ptype) != Allow ==> KeyFor(policy, l, f) !in o
    ensures MaskOne(policy, text, l, f).1 == MaskOne(policy, [], l, f).1
  {
    hide Placeholder, BlockedPlaceholder, ActionFor, ReplaceFirst, IssuedLabel, Shaped;
    KeyIsNew(policy, l, f);
    var o' := OriginOne(policy, l, o, f);
    forall k | k in o' ensures IssuedLabel(MaskOne(policy, text, l, f).1, k) {
      StillIssued(policy, text, l, f, k);
    }
  }

  lemma {:induction false} MoreOrigins(a: seq<Mark>, o: Origins, o': Origins)
    requires Good(a, o) && Extends(o, o')
    ensures Good(a, o') && Meaning(a, o') == Meaning(a, o)
    ensures forall z :: Across(a, z, o') == Across(a, z, o)
  {
    if a != [] {
      MoreOrigins(a[1..], o, o');
      if a[0].Open? {
        UsesMore(a[1..], TailLength(a[0].key), o, o');
      }
    }
  }

  lemma {:induction false} UsesMore(a: seq<Mark>, n: nat, o: Origins, o': Origins)
    requires Good(a, o) && Extends(o, o')
    ensures Uses(a, n, o') == Uses(a, n, o)
    decreases |a|
  {
    hide Meaning, Labels;
    if n > 0 && a != [] {
      match a[0] {
        case Chr(_) => UsesMore(a[1..], n - 1, o, o');
        case Open(key) =>
          var f := |Origin(o, key)|;
          UsesMore(a[1..], TailLength(key) + if n > f then n - f else 0, o, o');
      }
    }
  }

  /** A finding without `<` is found where no label is. */
  lemma {:induction false} FoundAmongChars(a: seq<Mark>, p: nat, f: string)
    requires At(Show(a), p, f) && '<' !in f
    ensures p + |f| <= |a| && a == a[..p] + (Chrs(f) + a[p + |f|..])
  {
    AtChars(Show(a), p, f);
    forall j | 0 <= j < |f| ensures a[p + j] == Chr(f[j]) {
      assert f[j] in f;
      assert Show(a)[p + j] == f[j];
    }
  }

  lemma {:induction false} PutInShows(a: seq<Mark>, p: nat, f: string, key: string)
    requires Find(Show(a), f) == Some(p) && At(Show(a), p, f) && p + |f| <= |a| && key != [] && key[0] == '<'
    ensures Show(PutIn(a, p, f, key)) == ReplaceFirst(Show(a), f, key)
  {
    hide Opened, At, Find;
    ShowsWhole(a[..p], key, a[p + |f|..]);
    assert Show(a[..p]) == Show(a)[..p] && Show(a[p + |f|..]) == Show(a)[p + |f|..];
  }

  /** One finding, put in at the place where it is found: the meaning stays, and no placeholder that
      was put across another one ceases to be. */
  lemma {:induction false} PutInLaw(a: seq<Mark>, p: nat, f: string, key: string, o: Origins)
    requires OriginsOk(o) && key in o && o[key] == f && Good(a, o) && key !in Labels(a) && At(Show(a), p, f)
    ensures var a' := PutIn(a, p, f, key);
            && Good(a', o) && Meaning(a', o) == Meaning(a, o) && Labels(a') == Labels(a) + {key}
            && p + |f| <= |a| && a == a[..p] + (Chrs(f) + a[p + |f|..])
            && (forall z | z != key :: Across(a, z, o) == Across(a', z, o) - {key})
  {
    hide Good, Meaning, Labels, Across, At, Shaped;
    FoundAmongChars(a, p, f);
    var u, w := a[..p], a[p + |f|..];
    ShapedStart(key);
    GoodSuffix(a, p + |f|, o);
    LabelsApart(u, Chrs(f) + w, o);
    LabelsConcat(u, Chrs(f) + w);
    ChrsThen(f, w, o);
    Exchange(u, key, w, o);
  }

  lemma {:induction false} MarkOneLaw(policy: PrivacyPolicy, a: seq<Mark>, l: Ledger, o: Origins, f: Finding)
    requires Known(l, o) && Good(a, o) && (ActionFor(policy, f.ptype) != Allow ==> '<' !in f.original)
    ensures var a', o' := MarkOne(policy, a, l, f), OriginOne(policy, l, o, f);
            && Show(a') == MaskOne(policy, Show(a), l, f).0
            && Good(a', o') && Meaning(a', o') == Meaning(a, o)
            && Labels(a) <= Labels(a') && (forall z | z in Labels(a) :: Across(a, z, o) <= Across(a', z, o'))
  {
    hide Good, Meaning, Labels, Across, Show, At, Find, Shaped, IssuedLabel, Placeholder, BlockedPlaceholder, ActionFor, ReplaceFirst;
    KnownNext(policy, Show(a), l, o, f);
    if ActionFor(policy, f.ptype) != Allow {
      var key, o' := KeyFor(policy, l, f), OriginOne(policy, l, o, f);
      KeyIsNew(policy, l, f);
      ShapedStart(key);
      MoreOrigins(a, o, o');
      LabelsKnown(a, o);
      FindLaw(Show(a), f.original);
      match Find(Show(a), f.original) {
        case None => NotReplaced(Show(a), f.original, key);
        case Some(p) =>
          PutInLaw(a, p, f.original, key, o');
          PutInShows(a, p, f.original, key);
      }
    }
  }

  lemma {:induction false} NotReplaced(text: string, f: string, key: string)
    requires Find(text, f).None?
    ensures ReplaceFirst(text, f, key) == text
  {
  }

  lemma {:induction false} LabelsKnown(a: seq<Mark>, o: Origins)
    requires Good(a, o)
    ensures forall k | k in Labels(a) :: k in o
  {
    if a != [] {
      LabelsKnown(a[1..], o);
    }
  }

  lemma {:induction false} PlainRest(policy: PrivacyPolicy, findings: seq<Finding>)
    requires findings != [] && PlainFindings(policy, findings)
    ensures PlainFindings(policy, findings[1..])
    ensures ActionFor(policy, findings[0].ptype) != Allow ==> '<' !in findings[0].original
  {
    hide ActionFor;
    forall i | 0 <= i < |findings[1..]| ensures findings[1..][i] == findings[i + 1] { }
  }

  lemma {:induction false} MarkAllLaw(policy: PrivacyPolicy, a: seq<Mark>, l: Ledger, o: Origins, findings: seq<Finding>)
    requires Known(l, o) && Good(a, o) && PlainFindings(policy, findings)
    ensures var (text, l') := MaskAll(policy, Show(a), l, findings);
            var a', o' := MarkAll(policy, a, l, findings), OriginAll(policy, l, o, findings);
            && Show(a') == text && Known(l', o') && Extends(o, o')
            && Good(a', o') && Meaning(a', o') == Meaning(a, o)
            && Labels(a) <= Labels(a') && (forall z | z in Labels(a) :: Across(a, z, o) <= Across(a', z, o'))
    decreases |findings|
  {
    hide Good, Meaning, Labels, Across, Show, Known, PlainFindings, MaskOne, MarkOne, OriginOne;
    if findings != [] {
      var f := findings[0];
      PlainRest(policy, findings);
      MarkOneLaw(policy, a, l, o, f);
      KnownNext(policy, Show(a), l, o, f);
      MarkAllLaw(policy, MarkOne(policy, a, l, f), MaskOne(policy, Show(a), l, f).1, OriginOne(policy, l, o, f), findings[1..]);
    }
  }

  lemma {:induction false} OriginsStay(policy: PrivacyPolicy, l: Ledger, o: Origins, batch: seq<Message>)
    requires Known(l, o) && PlainBatch(policy, batch)
    ensures var (texts, last) := MaskBatch(policy, l, batch);
            var o' := BatchOrigins(policy, l, o, batch);
            && |texts| == |batch| == |BatchMarks(policy, l, batch)| && Known(last, o') && Extends(o, o')
    decreases |batch|
  {
    hide Good, Meaning, Labels, Across, Known, PlainFindings, MaskAll, MarkAll, OriginAll;
    if batch != [] {
      var a := Chrs(batch[0].text);
      assert Show(a) == batch[0].text;
      PlainText(batch[0].text, o);
      MarkAllLaw(policy, a, l, o, batch[0].findings);
      PlainBatchRest(policy, batch);
      OriginsStay(policy, MaskAll(policy, batch[0].text, l, batch[0].findings).1,
        OriginAll(policy, l, o, batch[0].findings), batch[1..]);
    }
  }

  lemma {:induction false} PlainBatchRest(policy: PrivacyPolicy, batch: seq<Message>)
    requires batch != [] && PlainBatch(policy, batch)
    ensures PlainBatch(policy, batch[1..])
  {
    hide PlainFindings;
    forall i | 0 <= i < |batch[1..]| ensures batch[1..][i] == batch[i + 1] { }
  }

  lemma {:induction false} PlainText(text: string, o: Origins)
    ensures '<' !in text ==> Good(Chrs(text), o)
    ensures Meaning(Chrs(text), o) == text && Labels(Chrs(text)) == {}
  {
    ChrsThen(text, [], o);
    assert Chrs(text) + [] == Chrs(text) && text + [] == text;
    if '<' !in text { ChrsGood(text, [], o); }
  }

  /** Each masked text of the batch, labelled, means the text it was. */
  lemma {:induction false} BatchLaw(policy: PrivacyPolicy, l: Ledger, o: Origins, batch: seq<Message>, i: nat)
    requires Known(l, o) && PlainBatch(policy, batch) && i < |batch|
    ensures var (texts, last) := MaskBatch(policy, l, batch);
            var o', marks := BatchOrigins(policy, l, o, batch), BatchMarks(policy, l, batch);
            && |texts| == |batch| == |marks| && Known(last, o')
            && Show(marks[i]) == texts[i] && Good(marks[i], o') && Meaning(marks[i], o') == batch[i].text
    decreases |batch|
  {
    hide Good, Meaning, Labels, Across, Known, PlainFindings, MaskAll, MarkAll, OriginAll;
    OriginsStay(policy, l, o, batch);
    var a := Chrs(batch[0].text);
    assert Show(a) == batch[0].text;
    PlainText(batch[0].text, o);
    MarkAllLaw(policy, a, l, o, batch[0].findings);
    PlainBatchRest(policy, batch);
    var l1, o1 := MaskAll(policy, batch[0].text, l, batch[0].findings).1, OriginAll(policy, l, o, batch[0].findings);
    if i == 0 {
      OriginsStay(policy, l1, o1, batch[1..]);
      MoreOrigins(MarkAll(policy, a, l, batch[0].findings), o1, BatchOrigins(policy, l1, o1, batch[1..]));
    } else {
      BatchLaw(policy, l1, o1, batch[1..], i - 1);
    }
  }

  // ------------------------------------------------------------ orders of keys

  /** The keys of the map, each once. */
  ghost predicate ListsKeys(order: seq<string>, entries: map<string, string>) {
    NoRepeats(order) && [] !in order && forall k :: k in order <==> k in entries
  }

  /** The order of the sort; keys of one length may come in any order. */
  ghost predicate LongestFirst(order: seq<string>) {
    forall i, j | 0 <= i < j < |order| :: |order[i]| >= |order[j]|
  }

  lemma {:induction false} Longest(keys: set<string>, x: string) returns (k: string)
    requires keys != {}
    ensures k in keys && (forall z | z in keys :: |z| <= |k|)
    ensures x in keys && (forall z | z in keys :: |z| <= |x|) ==> k == x
  {
    k :| k in keys;
    if keys != {k} {
      var rest := keys - {k};
      var m := Longest(rest, x);
      if |m| > |k| || (|m| == |k| && k != x) { k := m; }
      if x in keys && (forall z | z in keys :: |z| <= |x|) {
        assert x == k || x in rest;
      }
    }
  }

  /** The keys can be sorted so that `x` comes before any other key that is no longer. */
  lemma {:induction false} SortKeys(keys: set<string>, x: string) returns (order: seq<string>)
    ensures NoRepeats(order) && LongestFirst(order) && forall k :: k in order <==> k in keys
    ensures forall y | y in keys && x in keys && y != x && |y| <= |x| :: Ahead(order, x, y)
    decreases |keys|
  {
    order := [];
    if keys != {} {
      var k := Longest(keys, x);
      var rest := SortKeys(keys - {k}, x);
      order := [k] + rest;
      assert order[1..] == rest;
      forall i, j | 0 <= i < j < |order| ensures order[i] != order[j] && |order[i]| >= |order[j]| {
        assert order[j] == rest[j - 1] && rest[j - 1] in rest;
        if i > 0 { assert order[i] == rest[i - 1]; }
      }
      forall y | y in keys && x in keys && y != x && |y| <= |x| ensures Ahead(order, x, y) {
        AheadOfRest(order, x, y);
        if k == x { assert y in rest; } else { LongerThan(keys, k, x, y); }
      }
    }
  }

  lemma {:induction false} LongerThan(keys: set<string>, k: string, x: string, y: string)
    requires x in keys && y in keys && k in keys && k != x && |y| <= |x|
    requires forall z | z in keys :: |z| <= |k|
    requires (forall z | z in keys :: |z| <= |x|) ==> k == x
    ensures y != k
  {
  }

  /** An order with `x` in front. */
  lemma {:induction false} FirstInOrder(keys: set<string>, x: string) returns (order: seq<string>)
    requires x in keys
    ensures NoRepeats(order) && order != [] && order[0] == x && forall k :: k in order <==> k in keys
  {
    var rest := SortKeys(keys - {x}, x);
    order := [x] + rest;
    assert order[1..] == rest;
    forall i, j | 0 <= i < j < |order| ensures order[i] != order[j] {
      assert order[j] == rest[j - 1] && rest[j - 1] in rest;
      if i > 0 { assert order[i] == rest[i - 1]; }
    }
  }

  // ---------------------------------------------------------- main results

  /** Every `<` of the masked text opens a whole placeholder of the map. */
  ghost predicate Whole(text: string, entries: map<string, string>) {
    forall h | 0 <= h < |text| && text[h] == '<' :: Opens(text, h, entries)
  }

  ghost predicate Opens(text: string, h: nat, entries: map<string, string>) {
    exists k :: k in entries && At(text, h, k)
  }

  /** The same of the labels. */
  ghost predicate AllStand(a: seq<Mark>, o: Origins, entries: map<string, string>) {
    forall x | x in Labels(a) :: x in entries && Across(a, x, o) == {}
  }

  lemma {:induction false} WholeIsAllStand(a: seq<Mark>, o: Origins, entries: map<string, string>)
    requires Good(a, o) && OriginsOk(o) && Agree(entries, o)
    ensures Whole(Show(a), entries) <==> AllStand(a, o, entries)
  {
    hide Good, Meaning, Labels, Uses, Across, Shaped;
    if AllStand(a, o, entries) {
      forall h | 0 <= h < |a| && Show(a)[h] == '<' ensures Opens(Show(a), h, entries) {
        MarkOk(a, h, o);
        LabelAt(a, h);
        var x := a[h].key;
        StandsAt(a, h, x, o);
      }
    }
    if Whole(Show(a), entries) {
      forall x | x in Labels(a) ensures x in entries && Across(a, x, o) == {} {
        var i := LabelPosition(a, x, o);
        assert Show(a)[i] == '<';
        assert Opens(Show(a), i, entries);
        var k :| k in entries && At(Show(a), i, k);
        FoundAtLabel(a, i, k, o);
      }
    }
  }

  lemma {:induction false} StandsAt(a: seq<Mark>, i: nat, key: string, o: Origins)
    requires Good(a, o) && i < |a| && a[i] == Open(key) && Across(a, key, o) == {}
    ensures key != [] && At(Show(a), i, key) && i + |key| <= |a| && a[i..] == Opened(key) + a[i + |key|..]
  {
    hide Good, Meaning, Labels, Uses, Across, Shaped, At, Show;
    LabelAt(a, i);
    var j := LabelPosition(a, key, o);
    OneLabel(a, i, j, key, o);
    MarkOk(a, i, o);
    ShapedStart(key);
    WholeAt(a, i, key, o);
    ShowsWhole(a[..i], key, a[i + |key|..]);
  }

  lemma {:induction false} NothingKnown()
    ensures Known(NO_ENTRIES, map[])
  {
  }

  /** The setting of the theorems: message `i` of a batch with its labels. */
  lemma {:induction false} Labelled(policy: PrivacyPolicy, batch: seq<Message>, i: nat) returns (a: seq<Mark>, o: Origins)
    requires PlainBatch(policy, batch) && i < |batch|
    ensures var (texts, l) := MaskBatch(policy, NO_ENTRIES, batch);
            && |texts| == |batch| == |BatchMarks(policy, NO_ENTRIES, batch)| && Show(a) == texts[i]
            && a == BatchMarks(policy, NO_ENTRIES, batch)[i] && o == BatchOrigins(policy, NO_ENTRIES, map[], batch)
            && Good(a, o) && OriginsOk(o) && Agree(l.entries, o) && Meaning(a, o) == batch[i].text
            && '<' !in Meaning(a, o) && [] !in l.entries
  {
    hide MaskBatch, BatchMarks, BatchOrigins, Good, Meaning, IssuedLabel, PlainFindings;
    NothingKnown();
    BatchLaw(policy, NO_ENTRIES, map[], batch, i);
    a, o := BatchMarks(policy, NO_ENTRIES, batch)[i], BatchOrigins(policy, NO_ENTRIES, map[], batch);
    var entries := MaskBatch(policy, NO_ENTRIES, batch).1.entries;
    forall k | k in entries ensures k != [] { assert Shaped(k); }
  }

  /** Reconstruction gives a message back whatever the order of the keys if and only if every `<` of
      its masked text opens a whole placeholder of the map. */
  lemma {:induction false} AnyOrder(policy: PrivacyPolicy, batch: seq<Message>, i: nat)
    requires PlainBatch(policy, batch) && i < |batch|
    ensures var (texts, l) := MaskBatch(policy, NO_ENTRIES, batch);
            && |texts| == |batch|
            && ((forall order | ListsKeys(order, l.entries) :: Restore(texts[i], l.entries, order) == batch[i].text)
                <==> Whole(texts[i], l.entries))
  {
    hide MaskBatch, PlainBatch, Good, Meaning, Labels, Across, Show, OriginsOk, Restore, Whole;
    var a, o := Labelled(policy, batch, i);
    var entries := MaskBatch(policy, NO_ENTRIES, batch).1.entries;
    WholeIsAllStand(a, o, entries);
    if AllStand(a, o, entries) {
      forall order | ListsKeys(order, entries) ensures Restore(Show(a), entries, order) == batch[i].text {
        OrderLaw(a, o, entries, order);
      }
    } else {
      var x :| x in Labels(a) && !(x in entries && Across(a, x, o) == {});
      var order;
      if x in entries {
        order := FirstInOrder(entries.Keys, x);
        var y :| y in Across(a, x, o);
        AheadInOrder(order, y, x);
      } else {
        order := SortKeys(entries.Keys, x);
      }
      assert ListsKeys(order, entries) && !Undoes(a, o, order);
      OrderLaw(a, o, entries, order);
    }
  }

  /** Nothing is blocked, and every placeholder is shorter than those put across it. */
  ghost predicate Outgrown(a: seq<Mark>, o: Origins, entries: map<string, string>) {
    forall x | x in Labels(a) :: x in entries && forall y | y in Across(a, x, o) :: |y| > |x|
  }

  /** With longer keys first, as the sort has them, reconstruction gives a message back if and only if
      every placeholder that another one was put across is the shorter of the two. */
  lemma {:induction false} LongestFirstOrder(policy: PrivacyPolicy, batch: seq<Message>, i: nat)
    requires PlainBatch(policy, batch) && i < |batch|
    ensures var (texts, l) := MaskBatch(policy, NO_ENTRIES, batch);
            && |texts| == |batch| == |BatchMarks(policy, NO_ENTRIES, batch)|
            && ((forall order | ListsKeys(order, l.entries) && LongestFirst(order) ::
                   Restore(texts[i], l.entries, order) == batch[i].text)
                <==> Outgrown(BatchMarks(policy, NO_ENTRIES, batch)[i], BatchOrigins(policy, NO_ENTRIES, map[], batch), l.entries))
  {
    hide MaskBatch, BatchMarks, BatchOrigins, PlainBatch, Good, Meaning, Labels, Across, Show, OriginsOk, Restore;
    var a, o := Labelled(policy, batch, i);
    var entries := MaskBatch(policy, NO_ENTRIES, batch).1.entries;
    if Outgrown(a, o, entries) {
      forall order | ListsKeys(order, entries) && LongestFirst(order) ensures Restore(Show(a), entries, order) == batch[i].text {
        OutgrownUndoes(a, o, entries, order);
        OrderLaw(a, o, entries, order);
      }
    } else {
      var order := FailingSort(a, o, entries);
      OrderLaw(a, o, entries, order);
    }
  }

  lemma {:induction false} OutgrownUndoes(a: seq<Mark>, o: Origins, entries: map<string, string>, order: seq<string>)
    requires Outgrown(a, o, entries) && ListsKeys(order, entries) && LongestFirst(order)
    ensures Undoes(a, o, order)
  {
    hide Labels, Across;
    forall x, y | x in Labels(a) && y in Across(a, x, o) ensures Ahead(order, y, x) {
      AcrossAreLabels(a, x, o);
      assert x in order && y in order;
      var i, j :| 0 <= i < |order| && 0 <= j < |order| && order[i] == y && order[j] == x;
      assert i < j;
    }
  }

  lemma {:induction false} FailingSort(a: seq<Mark>, o: Origins, entries: map<string, string>) returns (order: seq<string>)
    requires !Outgrown(a, o, entries) && [] !in entries && Good(a, o)
    ensures ListsKeys(order, entries) && LongestFirst(order) && !Undoes(a, o, order)
  {
    hide Labels, Across, Good;
    var x :| x in Labels(a) && !(x in entries && forall y | y in Across(a, x, o) :: |y| > |x|);
    order := SortKeys(entries.Keys, x);
    if x in entries {
      var y :| y in Across(a, x, o) && |y| <= |x|;
      AcrossAreLabels(a, x, o);
      if y in entries {
        assert y in entries.Keys && x in entries.Keys;
        NotBothAhead(order, x, y);
      }
    }
  }

  lemma {:induction false} SameIndex(order: seq<string>, i: nat, m: nat)
    requires NoRepeats(order) && i < |order| && m < |order| && order[i] == order[m]
    ensures i == m
  {
  }

  lemma {:induction false} NotBothAhead(order: seq<string>, x: string, y: string)
    requires NoRepeats(order) && Ahead(order, x, y)
    ensures !Ahead(order, y, x)
  {
    hide NoRepeats;
    var i, j :| 0 <= i < j < |order| && order[i] == x && order[j] == y;
    forall m, n | 0 <= m < n < |order| ensures !(order[m] == y && order[n] == x) {
      if order[m] == y && order[n] == x {
        SameIndex(order, m, j);
        SameIndex(order, n, i);
      }
    }
  }
}
