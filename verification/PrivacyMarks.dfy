/** Masked text with every `<` labelled by the placeholder it opens, broken or whole, and exactly
    which orders of putting the originals back undo the masking. */
module PrivacyMarks {
  import opened PrivacyEngine
  import opened PrivacyPlaceholders

  datatype Mark = Chr(c: char) | Open(key: string)

  /** What each placeholder stands for. */
  type Origins = map<string, string>

  function Show(a: seq<Mark>): (s: string)
    ensures |s| == |a| && forall i | 0 <= i < |a| :: s[i] == if a[i].Chr? then a[i].c else '<'
  {
    seq(|a|, i requires 0 <= i < |a| => if a[i].Chr? then a[i].c else '<')
  }

  function Chrs(s: string): (a: seq<Mark>)
    ensures |a| == |s| && forall i | 0 <= i < |s| :: a[i] == Chr(s[i])
  {
    seq(|s|, i requires 0 <= i < |s| => Chr(s[i]))
  }

  function Opened(key: string): seq<Mark>
    requires key != []
  {
    [Open(key)] + Chrs(key[1..])
  }

  function Labels(a: seq<Mark>): set<string> {
    if a == [] then {} else (if a[0].Open? then {a[0].key} else {}) + Labels(a[1..])
  }

  function Origin(o: Origins, key: string): string {
    if key in o then o[key] else []
  }

  function TailLength(key: string): nat {
    if key == [] then 0 else |key| - 1
  }

  function Drop(s: string, n: nat): string {
    if n <= |s| then s[n..] else []
  }

  /** The text that was masked: what every placeholder stands for, in place of the placeholder. */
  function Meaning(a: seq<Mark>, o: Origins): string {
    if a == [] then []
    else
      var rest := Meaning(a[1..], o);
      match a[0]
      case Chr(c) => [c] + rest
      case Open(key) => Origin(o, key) + Drop(rest, TailLength(key))
  }

  /** Every label is used once, and the rest of its placeholder follows, some of it perhaps masked. */
  ghost predicate Good(a: seq<Mark>, o: Origins) {
    a == []
    || (&& Good(a[1..], o)
        && match a[0]
           case Chr(c) => c != '<'
           case Open(key) => key in o && Shaped(key) && key !in Labels(a[1..]) && key[1..] <= Meaning(a[1..], o))
  }

  ghost predicate OriginsOk(o: Origins) {
    forall k | k in o :: Shaped(k) && '<' !in o[k]
  }

  /** The labels met in reading the next `n` characters of the meaning. */
  function Uses(a: seq<Mark>, n: nat, o: Origins): set<string>
    decreases |a|
  {
    if n == 0 || a == [] then {}
    else
      match a[0]
      case Chr(_) => Uses(a[1..], n - 1, o)
      case Open(key) =>
        var f := |Origin(o, key)|;
        {key} + Uses(a[1..], TailLength(key) + if n > f then n - f else 0, o)
  }

  /** The placeholders that were put across the one labelled `key`, or across one of those. */
  function Across(a: seq<Mark>, key: string, o: Origins): set<string> {
    if a == [] then {}
    else if a[0] == Open(key) then Uses(a[1..], TailLength(key), o)
    else Across(a[1..], key, o)
  }

  // ------------------------------------------------------- parts of a text

  lemma {:induction false} ConcatStep(u: seq<Mark>, w: seq<Mark>)
    requires u != []
    ensures u + w != [] && (u + w)[0] == u[0] && (u + w)[1..] == u[1..] + w
  {
  }

  lemma {:induction false} ChrStep(a: seq<Mark>, o: Origins)
    requires a != [] && a[0].Chr?
    ensures Meaning(a, o) == [a[0].c] + Meaning(a[1..], o) && Labels(a) == Labels(a[1..])
    ensures Good(a, o) <==> a[0].c != '<' && Good(a[1..], o)
  {
  }

  lemma {:induction false} OpenStep(a: seq<Mark>, o: Origins)
    requires a != [] && a[0].Open?
    ensures var key := a[0].key;
            && Meaning(a, o) == Origin(o, key) + Drop(Meaning(a[1..], o), TailLength(key))
            && Labels(a) == {key} + Labels(a[1..])
            && (Good(a, o) <==> && Good(a[1..], o) && key in o && Shaped(key)
                                && key !in Labels(a[1..]) && key[1..] <= Meaning(a[1..], o))
  {
  }

  lemma {:induction false} LabelsConcat(u: seq<Mark>, w: seq<Mark>)
    ensures Labels(u + w) == Labels(u) + Labels(w)
  {
    if u == [] {
      assert u + w == w;
    } else {
      assert (u + w)[1..] == u[1..] + w;
      LabelsConcat(u[1..], w);
    }
  }

  lemma {:induction false} UsesAreLabels(a: seq<Mark>, n: nat, o: Origins)
    ensures Uses(a, n, o) <= Labels(a)
    decreases |a|
  {
    if n > 0 && a != [] {
      match a[0] {
        case Chr(_) => UsesAreLabels(a[1..], n - 1, o);
        case Open(key) =>
          var f := |Origin(o, key)|;
          UsesAreLabels(a[1..], TailLength(key) + if n > f then n - f else 0, o);
      }
    }
  }

  lemma {:induction false} ChrsStep(s: string, w: seq<Mark>)
    requires s != []
    ensures var a := Chrs(s) + w; a != [] && a[0] == Chr(s[0]) && a[1..] == Chrs(s[1..]) + w
  {
  }

  lemma {:induction false} ChrsThen(s: string, w: seq<Mark>, o: Origins)
    ensures Meaning(Chrs(s) + w, o) == s + Meaning(w, o)
    ensures Labels(Chrs(s) + w) == Labels(w)
  {
    hide Good, Meaning, Labels;
    if s == [] {
      assert Chrs(s) + w == w;
    } else {
      ChrsStep(s, w);
      ChrStep(Chrs(s) + w, o);
      hide Chrs;
      ChrsThen(s[1..], w, o);
      assert s == [s[0]] + s[1..];
    }
  }

  lemma {:induction false} ChrsGood(s: string, w: seq<Mark>, o: Origins)
    requires '<' !in s && Good(w, o)
    ensures Good(Chrs(s) + w, o)
  {
    hide Good, Meaning, Labels;
    if s == [] {
      assert Chrs(s) + w == w;
    } else {
      ChrsStep(s, w);
      ChrStep(Chrs(s) + w, o);
      hide Chrs;
      ChrsGood(s[1..], w, o);
      assert s[0] in s;
    }
  }

  lemma {:induction false} ChrsUse(s: string, w: seq<Mark>, n: nat, o: Origins)
    ensures Uses(Chrs(s) + w, n, o) == if n <= |s| then {} else Uses(w, n - |s|, o)
    decreases |s|
  {
    if s == [] {
      assert Chrs(s) + w == w;
    } else if n > 0 {
      assert (Chrs(s) + w)[1..] == Chrs(s[1..]) + w;
      ChrsUse(s[1..], w, n - 1, o);
    }
  }

  lemma {:induction false} ChrsAcross(s: string, w: seq<Mark>, key: string, o: Origins)
    ensures Across(Chrs(s) + w, key, o) == Across(w, key, o)
  {
    if s == [] {
      assert Chrs(s) + w == w;
    } else {
      assert (Chrs(s) + w)[1..] == Chrs(s[1..]) + w;
      ChrsAcross(s[1..], w, key, o);
    }
  }

  /** A placeholder and what it stands for mean the same, in front of the same text. */
  lemma {:induction false} SameMeaning(key: string, w: seq<Mark>, o: Origins)
    requires OriginsOk(o) && key in o && Good(w, o) && key !in Labels(w)
    ensures key != []
    ensures var x, y := Chrs(o[key]) + w, Opened(key) + w;
            && Good(x, o) && Good(y, o) && Meaning(x, o) == Meaning(y, o)
            && Labels(x) == Labels(w) && Labels(y) == Labels(w) + {key}
  {
    assert Shaped(key) && '<' !in o[key];
    hide Good, Meaning, Labels, Shaped;
    ChrsThen(o[key], w, o);
    ChrsGood(o[key], w, o);
    OpenedThen(key, w, o);
  }

  lemma {:induction false} OpenedThen(key: string, w: seq<Mark>, o: Origins)
    requires Shaped(key) && key in o && Good(w, o) && key !in Labels(w)
    ensures var y := Opened(key) + w;
            Good(y, o) && Meaning(y, o) == o[key] + Meaning(w, o) && Labels(y) == Labels(w) + {key}
  {
    hide Shaped, Good, Meaning, Labels, Chrs;
    ShapedStart(key);
    var tail := key[1..];
    ChrsThen(tail, w, o);
    ChrsGood(tail, w, o);
    OpenedStep(key, w);
    OpenStep(Opened(key) + w, o);
    DropTail(tail, Meaning(w, o));
  }

  lemma {:induction false} OpenedStep(key: string, w: seq<Mark>)
    requires key != []
    ensures var y := Opened(key) + w; y != [] && y[0] == Open(key) && y[1..] == Chrs(key[1..]) + w
  {
  }

  lemma {:induction false} DropTail(tail: string, rest: string)
    ensures Drop(tail + rest, |tail|) == rest && tail <= tail + rest
  {
  }

  lemma {:induction false} ShapedStart(key: string)
    requires Shaped(key)
    ensures |key| >= 2 && key[0] == '<' && '<' !in key[1..]
  {
  }

  lemma {:induction false} SameUses(key: string, w: seq<Mark>, n: nat, o: Origins)
    requires OriginsOk(o) && key in o && key !in Labels(w)
    ensures Uses(Chrs(o[key]) + w, n, o) == Uses(Opened(key) + w, n, o) - {key}
  {
    assert key != [] by { assert Shaped(key); }
    hide Shaped, Chrs, Labels;
    var f := |o[key]|;
    var more := if n > f then n - f else 0;
    OpenedStep(key, w);
    hide Opened;
    ChrsUse(o[key], w, n, o);
    ChrsUse(key[1..], w, |key| - 1 + more, o);
    UsesAreLabels(w, more, o);
  }

  lemma {:induction false} LabelsOfHead(u: seq<Mark>)
    requires u != []
    ensures Labels(u) == (if u[0].Open? then {u[0].key} else {}) + Labels(u[1..])
  {
  }

  /** Replacing the end of a text by one with the same meaning. */
  lemma {:induction false} Swap(u: seq<Mark>, x: seq<Mark>, y: seq<Mark>, o: Origins)
    requires Good(u + x, o) && Good(y, o) && Meaning(x, o) == Meaning(y, o) && Labels(u) !! Labels(y)
    ensures Good(u + y, o) && Meaning(u + y, o) == Meaning(u + x, o)
  {
    hide Good, Meaning, Labels, Shaped;
    if u == [] {
      assert u + x == x && u + y == y;
    } else {
      ConcatStep(u, x);
      ConcatStep(u, y);
      LabelsOfHead(u);
      if u[0].Chr? {
        ChrStep(u + x, o);
        ChrStep(u + y, o);
      } else {
        OpenStep(u + x, o);
        OpenStep(u + y, o);
      }
      Swap(u[1..], x, y, o);
      LabelsConcat(u[1..], x);
      LabelsConcat(u[1..], y);
    }
  }

  /** `x` is used as `y` is, but for the label `key`. */
  ghost predicate UsedAlike(x: seq<Mark>, y: seq<Mark>, key: string, o: Origins) {
    forall n: nat :: Uses(x, n, o) == Uses(y, n, o) - {key}
  }

  lemma {:induction false} SwapUses(u: seq<Mark>, x: seq<Mark>, y: seq<Mark>, key: string, n: nat, o: Origins)
    requires UsedAlike(x, y, key, o) && key !in Labels(u)
    ensures Uses(u + x, n, o) == Uses(u + y, n, o) - {key}
    decreases |u|
  {
    hide Labels, Origin;
    if u == [] {
      assert u + x == x && u + y == y;
    } else if n > 0 {
      ConcatStep(u, x);
      ConcatStep(u, y);
      LabelsOfHead(u);
      match u[0] {
        case Chr(_) => SwapUses(u[1..], x, y, key, n - 1, o);
        case Open(k) =>
          var f := |Origin(o, k)|;
          SwapUses(u[1..], x, y, key, TailLength(k) + if n > f then n - f else 0, o);
      }
    }
  }

  lemma {:induction false} SameAcross(key: string, w: seq<Mark>, z: string, o: Origins)
    requires OriginsOk(o) && key in o && key !in Labels(w) && z != key
    ensures Across(Chrs(o[key]) + w, z, o) == Across(Opened(key) + w, z, o) - {key}
  {
    var y := Opened(key) + w;
    assert y[0] == Open(key) && y[1..] == Chrs(key[1..]) + w;
    ChrsAcross(o[key], w, z, o);
    ChrsAcross(key[1..], w, z, o);
    AcrossAreLabels(w, z, o);
  }

  lemma {:induction false} SwapAcross(u: seq<Mark>, key: string, w: seq<Mark>, z: string, o: Origins)
    requires OriginsOk(o) && key in o && key !in Labels(u) && key !in Labels(w) && z != key
    ensures Across(u + (Chrs(o[key]) + w), z, o) == Across(u + (Opened(key) + w), z, o) - {key}
    decreases |u|
  {
    hide Uses, Chrs, Opened;
    assert key != [] by { assert Shaped(key); }
    var x, y := Chrs(o[key]) + w, Opened(key) + w;
    if u == [] {
      assert u + x == x && u + y == y;
      SameAcross(key, w, z, o);
    } else {
      assert (u + x)[1..] == u[1..] + x && (u + y)[1..] == u[1..] + y;
      assert (u + x)[0] == u[0] && (u + y)[0] == u[0];
      if u[0] == Open(z) {
        forall n: nat ensures Uses(x, n, o) == Uses(y, n, o) - {key} { SameUses(key, w, n, o); }
        SwapUses(u[1..], x, y, key, TailLength(z), o);
      } else {
        SwapAcross(u[1..], key, w, z, o);
      }
    }
  }

  lemma {:induction false} AcrossAreLabels(a: seq<Mark>, key: string, o: Origins)
    ensures Across(a, key, o) <= Labels(a)
    ensures Good(a, o) ==> key !in Across(a, key, o)
  {
    if a != [] {
      if a[0] == Open(key) {
        UsesAreLabels(a[1..], TailLength(key), o);
      } else {
        AcrossAreLabels(a[1..], key, o);
      }
    }
  }

  // --------------------------------------------------- where a key is found

  lemma {:induction false} GoodSuffix(a: seq<Mark>, i: nat, o: Origins)
    requires Good(a, o) && i <= |a|
    ensures Good(a[i..], o) && Labels(a[i..]) <= Labels(a)
  {
    if i == 0 {
      assert a[0..] == a;
    } else {
      assert a[i..] == a[1..][i - 1..];
      GoodSuffix(a[1..], i - 1, o);
    }
  }

  /** While no label is met, the text reads as it means. */
  lemma {:induction false} ReadsAsMeant(a: seq<Mark>, n: nat, o: Origins)
    requires Good(a, o) && n <= |Meaning(a, o)| && Uses(a, n, o) == {}
    ensures n <= |a| && Show(a)[..n] == Meaning(a, o)[..n]
    decreases |a|
  {
    if n > 0 {
      ReadsAsMeant(a[1..], n - 1, o);
      assert Show(a)[..n] == [a[0].c] + Show(a[1..])[..n - 1];
    }
  }

  lemma {:induction false} PlainReadsAsMeant(a: seq<Mark>, n: nat, o: Origins)
    requires n <= |a| && forall i | 0 <= i < n :: a[i].Chr?
    ensures Uses(a, n, o) == {} && n <= |Meaning(a, o)| && Meaning(a, o)[..n] == Show(a)[..n]
    decreases |a|
  {
    if n > 0 {
      PlainReadsAsMeant(a[1..], n - 1, o);
      assert Show(a)[..n] == [a[0].c] + Show(a[1..])[..n - 1];
    }
  }

  lemma {:induction false} SameShape(k: string, key: string, s: string)
    requires Shaped(k) && Shaped(key) && k[1..] <= s && key[1..] <= s
    ensures k == key
  {
    var m := if |k| <= |key| then |k| else |key|;
    forall i | 1 <= i < m ensures k[i] == key[i] {
      assert k[1..][i - 1] == s[i - 1] == key[1..][i - 1];
    }
  }

  lemma {:induction false} AtChars(text: string, i: nat, key: string)
    requires At(text, i, key)
    ensures forall j | 0 <= j < |key| :: text[i + j] == key[j]
  {
    forall j | 0 <= j < |key| ensures text[i + j] == key[j] {
      assert text[i..i + |key|][j] == key[j];
    }
  }

  /** A key is found only at its own label. */
  lemma {:induction false} FoundAtLabel(a: seq<Mark>, i: nat, key: string, o: Origins)
    requires Good(a, o) && Shaped(key) && At(Show(a), i, key)
    ensures i < |a| && a[i] == Open(key) && Uses(a[i + 1..], TailLength(key), o) == {}
  {
    hide Meaning, Uses;
    AtChars(Show(a), i, key);
    MarkOk(a, i, o);
    assert Show(a)[i] == '<';
    var rest := a[i + 1..];
    forall j | 0 <= j < |key| - 1 ensures rest[j].Chr? && rest[j] == Chr(key[j + 1]) {
      assert rest[j] == a[i + 1 + j];
      assert Show(a)[i + (j + 1)] == key[j + 1];
      MarkOk(a, i + 1 + j, o);
    }
    PlainReadsAsMeant(rest, |key| - 1, o);
    assert Show(rest)[..|key| - 1] == key[1..];
    SameShape(a[i].key, key, Meaning(rest, o));
  }

  lemma {:induction false} MarkOk(a: seq<Mark>, i: nat, o: Origins)
    requires Good(a, o) && i < |a|
    ensures match a[i]
            case Chr(c) => c != '<'
            case Open(key) => key in o && Shaped(key) && key !in Labels(a[i + 1..]) && key[1..] <= Meaning(a[i + 1..], o)
  {
    if i > 0 {
      MarkOk(a[1..], i - 1, o);
      assert a[i + 1..] == a[1..][i..];
    }
  }

  lemma {:induction false} PlainRun(a: seq<Mark>, n: nat, o: Origins)
    requires n <= |a| && Uses(a, n, o) == {}
    ensures forall i | 0 <= i < n :: a[i].Chr?
    decreases |a|
  {
    if n > 0 {
      PlainRun(a[1..], n - 1, o);
      forall i | 0 <= i < n ensures a[i].Chr? {
        if i > 0 { assert a[i] == a[1..][i - 1]; }
      }
    }
  }

  /** What follows a label with nothing across it. */
  lemma {:induction false} TailStands(rest: seq<Mark>, key: string, o: Origins)
    requires Good(rest, o) && key != [] && key[1..] <= Meaning(rest, o) && Uses(rest, TailLength(key), o) == {}
    ensures |rest| >= |key| - 1 && rest == Chrs(key[1..]) + rest[|key| - 1..]
  {
    hide Uses, Meaning;
    var n := |key| - 1;
    ReadsAsMeant(rest, n, o);
    PlainRun(rest, n, o);
    assert Show(rest)[..n] == key[1..];
    forall j | 0 <= j < n ensures rest[j] == Chr(key[1..][j]) {
      assert Show(rest)[..n][j] == key[1..][j];
    }
  }

  /** At a label with nothing across it the whole placeholder stands. */
  lemma {:induction false} WholeAt(a: seq<Mark>, i: nat, key: string, o: Origins)
    requires Good(a, o) && i < |a| && a[i] == Open(key) && Uses(a[i + 1..], TailLength(key), o) == {}
    ensures i + |key| <= |a| && key != [] && a[i..] == Opened(key) + a[i + |key|..]
    ensures a == a[..i] + (Opened(key) + a[i + |key|..])
  {
    hide Uses, Meaning, Good, Labels;
    MarkOk(a, i, o);
    var rest := a[i + 1..];
    GoodSuffix(a, i + 1, o);
    assert key != [];
    TailStands(rest, key, o);
    assert rest[|key| - 1..] == a[i + |key|..];
    assert a[i..] == [a[i]] + rest;
  }

  lemma {:induction false} ShowConcat(u: seq<Mark>, w: seq<Mark>)
    ensures Show(u + w) == Show(u) + Show(w)
  {
  }

  lemma {:induction false} ShowOpened(key: string)
    requires key != [] && key[0] == '<'
    ensures Show(Opened(key)) == key
  {
  }

  lemma {:induction false} Associate(x: string, y: string, z: string)
    ensures x + (y + z) == x + y + z
  {
  }

  lemma {:induction false} AtMiddle(x: string, key: string, y: string)
    ensures At(x + key + y, |x|, key)
  {
    assert (x + key + y)[|x|..|x| + |key|] == key;
  }

  lemma {:induction false} ShowsWhole(u: seq<Mark>, key: string, w: seq<Mark>)
    requires key != [] && key[0] == '<'
    ensures Show(u + (Opened(key) + w)) == Show(u) + key + Show(w)
    ensures At(Show(u + (Opened(key) + w)), |u|, key)
  {
    hide Opened, Show, At;
    ShowOpened(key);
    ShowConcat(Opened(key), w);
    ShowConcat(u, Opened(key) + w);
    Associate(Show(u), key, Show(w));
    AtMiddle(Show(u), key, Show(w));
  }

  lemma {:induction false} ShowsChrs(u: seq<Mark>, f: string, w: seq<Mark>)
    ensures Show(u + (Chrs(f) + w)) == Show(u) + f + Show(w)
  {
    hide Show;
    assert Show(Chrs(f)) == f;
    ShowConcat(Chrs(f), w);
    ShowConcat(u, Chrs(f) + w);
    Associate(Show(u), f, Show(w));
  }

  lemma {:induction false} LabelPosition(a: seq<Mark>, key: string, o: Origins) returns (i: nat)
    requires Good(a, o) && key in Labels(a)
    ensures i < |a| && a[i] == Open(key) && Across(a, key, o) == Uses(a[i + 1..], TailLength(key), o)
    ensures key !in Labels(a[..i]) && key !in Labels(a[i + 1..])
  {
    if a[0] == Open(key) {
      i := 0;
    } else {
      var j := LabelPosition(a[1..], key, o);
      i := j + 1;
      assert a[i + 1..] == a[1..][j + 1..] && a[..i][1..] == a[1..][..j];
    }
  }

  lemma {:induction false} LabelAt(a: seq<Mark>, i: nat)
    requires i < |a| && a[i].Open?
    ensures a[i].key in Labels(a)
  {
    if i > 0 {
      LabelAt(a[1..], i - 1);
    }
  }

  // ------------------------------------------------------- putting one back

  lemma {:induction false} ReplaceNone(text: string, key: string, put: string)
    requires key != [] && forall j: nat :: !At(text, j, key)
    ensures ReplaceAll(text, key, put) == text
  {
    if text != [] {
      AtZero(text, key);
      forall j: nat ensures !At(text[1..], j, key) {
        AtTail(text, j + 1, key);
      }
      ReplaceNone(text[1..], key, put);
    }
  }

  lemma {:induction false} NotInRest(text: string, n: nat, key: string, rest: string)
    requires n <= |text| && rest == text[n..] && forall j: nat | j >= n :: !At(text, j, key)
    ensures forall j: nat :: !At(rest, j, key)
  {
    forall j: nat ensures !At(rest, j, key) {
      if At(rest, j, key) {
        assert text[n + j..n + j + |key|] == rest[j..j + |key|];
        assert At(text, n + j, key);
      }
    }
  }

  lemma {:induction false} ReplaceHere(text: string, key: string, put: string)
    requires key != [] && key <= text
    ensures ReplaceAll(text, key, put) == put + ReplaceAll(text[|key|..], key, put)
  {
  }

  lemma {:induction false} ReplaceLater(text: string, key: string, put: string)
    requires key != [] && text != [] && !(key <= text)
    ensures ReplaceAll(text, key, put) == [text[0]] + ReplaceAll(text[1..], key, put)
  {
  }

  lemma {:induction false} ReplaceOnce(text: string, key: string, put: string, i: nat)
    requires key != [] && i + |key| <= |text| && At(text, i, key) && forall j: nat | j != i :: !At(text, j, key)
    ensures ReplaceAll(text, key, put) == text[..i] + put + text[i + |key|..]
  {
    hide At, ReplaceAll;
    AtZero(text, key);
    if i == 0 {
      NotInRest(text, |key|, key, text[|key|..]);
      ReplaceNone(text[|key|..], key, put);
      ReplaceHere(text, key, put);
    } else {
      var rest := text[1..];
      AtTail(text, i, key);
      forall j: nat | j != i - 1 ensures !At(rest, j, key) {
        AtTail(text, j + 1, key);
      }
      ReplaceOnce(rest, key, put, i - 1);
      ReplaceLater(text, key, put);
      assert text[..i] == [text[0]] + rest[..i - 1] && text[i + |key|..] == rest[i - 1 + |key|..];
    }
  }

  /** Putting back a key whose placeholder is not in the text, or does not stand whole. */
  lemma {:induction false} PutBackNothing(a: seq<Mark>, key: string, o: Origins)
    requires Good(a, o) && OriginsOk(o) && key in o && (key !in Labels(a) || Across(a, key, o) != {})
    ensures ReplaceAll(Show(a), key, o[key]) == Show(a)
  {
    forall j: nat ensures !At(Show(a), j, key) {
      if At(Show(a), j, key) {
        FoundAtLabel(a, j, key, o);
        LabelAt(a, j);
        var i := LabelPosition(a, key, o);
        OneLabel(a, i, j, key, o);
      }
    }
    ReplaceNone(Show(a), key, o[key]);
  }

  lemma {:induction false} OneLabel(a: seq<Mark>, i: nat, j: nat, key: string, o: Origins)
    requires Good(a, o) && i < |a| && j < |a| && a[i] == Open(key) && a[j] == Open(key)
    ensures i == j
  {
    if i < j { LaterLabel(a, i, j); MarkOk(a, i, o); }
    if j < i { LaterLabel(a, j, i); MarkOk(a, j, o); }
  }

  lemma {:induction false} LaterLabel(a: seq<Mark>, i: nat, j: nat)
    requires i < j < |a| && a[j].Open?
    ensures a[j].key in Labels(a[i + 1..])
  {
    assert a[i + 1..][j - i - 1] == a[j];
    LabelAt(a[i + 1..], j - i - 1);
  }

  lemma {:induction false} OnlyAtLabel(a: seq<Mark>, i: nat, key: string, o: Origins)
    requires Good(a, o) && i < |a| && a[i] == Open(key) && Shaped(key)
    ensures forall j: nat | j != i :: !At(Show(a), j, key)
  {
    hide Good, Uses, Shaped, At;
    forall j: nat | j != i ensures !At(Show(a), j, key) {
      if At(Show(a), j, key) {
        FoundAtLabel(a, j, key, o);
        OneLabel(a, i, j, key, o);
      }
    }
  }

  /** A whole placeholder and the text it stands for, in the same place. */
  lemma {:induction false} Exchange(u: seq<Mark>, key: string, w: seq<Mark>, o: Origins)
    requires OriginsOk(o) && key in o && Good(w, o) && key !in Labels(w) && key !in Labels(u) && Labels(u) !! Labels(w)
    ensures var x, y := u + (Chrs(o[key]) + w), u + (Opened(key) + w);
            && (Good(x, o) <==> Good(y, o))
            && (Good(x, o) ==> Meaning(x, o) == Meaning(y, o))
            && Labels(y) == Labels(x) + {key} && key !in Labels(x)
            && (forall z | z != key :: Across(x, z, o) == Across(y, z, o) - {key})
  {
    hide Meaning, Uses, Across, Good, Labels;
    var x, y := Chrs(o[key]) + w, Opened(key) + w;
    SameMeaning(key, w, o);
    LabelsConcat(u, x);
    LabelsConcat(u, y);
    if Good(u + x, o) { Swap(u, x, y, o); }
    if Good(u + y, o) { Swap(u, y, x, o); }
    forall z | z != key ensures Across(u + x, z, o) == Across(u + y, z, o) - {key} {
      SwapAcross(u, key, w, z, o);
    }
  }

  lemma {:induction false} ShowsReplaced(u: seq<Mark>, key: string, w: seq<Mark>, f: string)
    requires key != [] && key[0] == '<'
    requires forall j: nat | j != |u| :: !At(Show(u + (Opened(key) + w)), j, key)
    ensures ReplaceAll(Show(u + (Opened(key) + w)), key, f) == Show(u + (Chrs(f) + w))
  {
    hide Opened, Show, At, ReplaceAll;
    ShowsWhole(u, key, w);
    ShowsChrs(u, f, w);
    var text := Show(u) + key + Show(w);
    ReplaceOnce(text, key, f, |u|);
    assert text[..|u|] == Show(u) && text[|u| + |key|..] == Show(w);
  }

  /** Putting back a key whose placeholder stands whole. */
  lemma {:induction false} PutBack(a: seq<Mark>, key: string, o: Origins) returns (a': seq<Mark>)
    requires Good(a, o) && OriginsOk(o) && key in Labels(a) && Across(a, key, o) == {}
    ensures key in o && key != [] && Show(a') == ReplaceAll(Show(a), key, o[key])
    ensures Good(a', o) && Meaning(a', o) == Meaning(a, o) && Labels(a') == Labels(a) - {key}
    ensures forall z | z != key :: Across(a', z, o) == Across(a, z, o) - {key}
  {
    hide Meaning, Uses, Across, Good, Labels, Shaped, At, ReplaceAll, Show;
    var i := LabelPosition(a, key, o);
    MarkOk(a, i, o);
    WholeAt(a, i, key, o);
    var u, w, f := a[..i], a[i + |key|..], o[key];
    a' := u + (Chrs(f) + w);
    GoodSuffix(a, i + |key|, o);
    SuffixLabels(a, i, i + |key|, o);
    LabelsApart(u, Opened(key) + w, o);
    LabelsConcat(Opened(key), w);
    Exchange(u, key, w, o);
    OnlyAtLabel(a, i, key, o);
    ShapedStart(key);
    ShowsReplaced(u, key, w, f);
  }

  lemma {:induction false} SuffixLabels(a: seq<Mark>, i: nat, j: nat, o: Origins)
    requires Good(a, o) && i < j <= |a|
    ensures Labels(a[j..]) <= Labels(a[i + 1..])
  {
    GoodSuffix(a, i + 1, o);
    GoodSuffix(a[i + 1..], j - i - 1, o);
    assert a[j..] == a[i + 1..][j - i - 1..];
  }

  lemma {:induction false} LabelsApart(u: seq<Mark>, w: seq<Mark>, o: Origins)
    requires Good(u + w, o)
    ensures Labels(u) !! Labels(w)
  {
    if u != [] {
      assert (u + w)[1..] == u[1..] + w;
      LabelsApart(u[1..], w, o);
      LabelsConcat(u[1..], w);
    }
  }

  // ------------------------------------------------------ putting all back

  ghost predicate NoRepeats(order: seq<string>) {
    forall i, j | 0 <= i < j < |order| :: order[i] != order[j]
  }

  ghost predicate Ahead(order: seq<string>, y: string, x: string) {
    exists i, j :: 0 <= i < j < |order| && order[i] == y && order[j] == x
  }

  /** Every placeholder of the text has its turn, after all that were put across it. */
  ghost predicate Undoes(a: seq<Mark>, o: Origins, order: seq<string>) {
    && (forall x | x in Labels(a) :: x in order)
    && (forall x, y | x in Labels(a) && y in Across(a, x, o) :: Ahead(order, y, x))
  }

  /** The entries say what the labels that may be put back stand for. */
  ghost predicate Agree(entries: map<string, string>, o: Origins) {
    forall k | k in entries :: k in o && entries[k] == o[k]
  }

  lemma {:induction false} NoLabelsMeans(a: seq<Mark>, o: Origins)
    requires Good(a, o)
    ensures Labels(a) == {} ==> Show(a) == Meaning(a, o)
    ensures Labels(a) != {} ==> '<' in Show(a)
  {
    if a != [] {
      NoLabelsMeans(a[1..], o);
      assert Show(a) == [Show(a)[0]] + Show(a[1..]);
    }
  }

  lemma {:induction false} AheadOfRest(order: seq<string>, y: string, x: string)
    requires order != [] && NoRepeats(order)
    ensures Ahead(order, y, x) <==> (order[0] == y && x in order[1..]) || Ahead(order[1..], y, x)
  {
    var rest := order[1..];
    if Ahead(rest, y, x) {
      var i, j :| 0 <= i < j < |rest| && rest[i] == y && rest[j] == x;
      assert order[i + 1] == y && order[j + 1] == x;
    }
    if order[0] == y && x in rest {
      var j :| 0 <= j < |rest| && rest[j] == x;
      assert order[0] == y && order[j + 1] == x;
    }
    if Ahead(order, y, x) {
      var i, j :| 0 <= i < j < |order| && order[i] == y && order[j] == x;
      assert rest[j - 1] == x;
      if i > 0 { assert rest[i - 1] == y; }
    }
  }

  lemma {:induction false} RestOfOrder(order: seq<string>)
    requires order != [] && NoRepeats(order)
    ensures NoRepeats(order[1..]) && order[0] !in order[1..] && order == [order[0]] + order[1..]
  {
    var rest := order[1..];
    forall i, j | 0 <= i < j < |rest| ensures rest[i] != rest[j] {
      assert order[i + 1] != order[j + 1];
    }
    forall j | 0 <= j < |rest| ensures rest[j] != order[0] {
      assert order[0] != order[j + 1];
    }
  }

  /** An order that starts with `key` undoes the masking if the rest undoes what is left after it. */
  lemma {:induction false} UndoesAfter(a: seq<Mark>, a': seq<Mark>, o: Origins, order: seq<string>)
    requires order != [] && NoRepeats(order) && order[0] in Labels(a) && Across(a, order[0], o) == {}
    requires Labels(a') == Labels(a) - {order[0]}
    requires forall z | z != order[0] :: Across(a', z, o) == Across(a, z, o) - {order[0]}
    ensures Undoes(a, o, order) <==> Undoes(a', o, order[1..])
  {
    hide Across, Labels;
    RestOfOrder(order);
    var key, rest := order[0], order[1..];
    forall x, y ensures Ahead(order, y, x) <==> (key == y && x in rest) || Ahead(rest, y, x) {
      AheadOfRest(order, y, x);
    }
    if Undoes(a', o, rest) {
      forall x | x in Labels(a) ensures x in order { }
      forall x, y | x in Labels(a) && y in Across(a, x, o) ensures Ahead(order, y, x) {
        if y != key { assert y in Across(a', x, o); }
      }
    }
    if Undoes(a, o, order) {
      forall x | x in Labels(a') ensures x in rest { }
      forall x, y | x in Labels(a') && y in Across(a', x, o) ensures Ahead(rest, y, x) {
        assert y in Across(a, x, o);
      }
    }
  }

  /** Passing over a key changes nothing about what is left to undo. */
  lemma {:induction false} UndoesWithout(a: seq<Mark>, o: Origins, order: seq<string>)
    requires order != [] && NoRepeats(order) && Good(a, o)
    requires order[0] !in Labels(a) || Across(a, order[0], o) != {}
    ensures Undoes(a, o, order) <==> Undoes(a, o, order[1..])
  {
    hide Across, Labels, Good;
    RestOfOrder(order);
    var key, rest := order[0], order[1..];
    forall x, y ensures Ahead(order, y, x) <==> (key == y && x in rest) || Ahead(rest, y, x) {
      AheadOfRest(order, y, x);
    }
    forall x ensures Across(a, x, o) <= Labels(a) && x !in Across(a, x, o) { AcrossAreLabels(a, x, o); }
    if key in Labels(a) {
      var y :| y in Across(a, key, o);
      AheadInOrder(order, y, key);
    }
  }

  lemma {:induction false} AheadInOrder(order: seq<string>, y: string, x: string)
    requires NoRepeats(order) && order != [] && order[0] == x
    ensures !Ahead(order, y, x)
  {
  }

  /** Exactly which orders undo the masking. */
  lemma {:induction false} OrderLaw(a: seq<Mark>, o: Origins, entries: map<string, string>, order: seq<string>)
    requires Good(a, o) && OriginsOk(o) && Agree(entries, o) && '<' !in Meaning(a, o)
    requires NoRepeats(order) && [] !in order && forall k | k in order :: k in entries
    ensures Restore(Show(a), entries, order) == Meaning(a, o) <==> Undoes(a, o, order)
    decreases |order|
  {
    hide Across, Labels, Good, Meaning, ReplaceAll;
    if order == [] {
      NoLabelsMeans(a, o);
      NothingLeft(a, o);
    } else {
      RestOfOrder(order);
      var key := order[0];
      if key in Labels(a) && Across(a, key, o) == {} {
        var a' := PutBack(a, key, o);
        OrderLaw(a', o, entries, order[1..]);
        UndoesAfter(a, a', o, order);
      } else {
        PutBackNothing(a, key, o);
        OrderLaw(a, o, entries, order[1..]);
        UndoesWithout(a, o, order);
      }
    }
  }

  lemma {:induction false} NothingLeft(a: seq<Mark>, o: Origins)
    ensures Undoes(a, o, []) <==> Labels(a) == {}
  {
    if Labels(a) != {} {
      var x :| x in Labels(a);
      assert x !in [];
    }
  }
}
