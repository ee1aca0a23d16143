/** The placeholders a batch issues: their shape, that no two are alike, and how text is searched. */
module PrivacyPlaceholders {
  import opened Wrappers
  import opened PrivacyEngine

  // ------------------------------------------------- placeholders are unique

  lemma {:induction false} DecimalDigits(n: nat)
    ensures Decimal(n) != [] && forall i | 0 <= i < |Decimal(n)| :: '0' <= Decimal(n)[i] <= '9'
  {
    if n >= 10 {
      DecimalDigits(n / 10);
    }
  }

  /** The number a string of decimal digits stands for. */
  function NumberOf(s: string): int {
    if s == [] then 0 else 10 * NumberOf(s[..|s| - 1]) + (s[|s| - 1] as int - '0' as int)
  }

  lemma {:induction false} DecimalReads(n: nat)
    ensures NumberOf(Decimal(n)) == n
  {
    if n >= 10 {
      DecimalReads(n / 10);
      assert Decimal(n)[..|Decimal(n)| - 1] == Decimal(n / 10);
    }
  }

  lemma {:induction false} DecimalInjective(m: nat, n: nat)
    requires Decimal(m) == Decimal(n)
    ensures m == n
  {
    DecimalDigits(m / 10);
    DecimalDigits(n / 10);
    if m >= 10 && n >= 10 {
      var a, b := Decimal(m), Decimal(n);
      assert a[..|a| - 1] == Decimal(m / 10) && b[..|b| - 1] == Decimal(n / 10);
      assert a[|a| - 1] == Digit(m % 10) && b[|b| - 1] == Digit(n % 10);
      DecimalInjective(m / 10, n / 10);
    }
  }

  lemma {:induction false} PrefixLetters(t: PrivacyType)
    ensures forall i | 0 <= i < |Prefix(t)| :: 'A' <= Prefix(t)[i] <= 'Z'
  {
  }

  lemma {:induction false} PrefixInjective(t: PrivacyType, u: PrivacyType)
    requires Prefix(t) == Prefix(u)
    ensures t == u
  {
    assert |Prefix(t)| == |Prefix(u)| && Prefix(t)[0] == Prefix(u)[0];
  }

  lemma {:induction false} PlaceholderInjective(t: PrivacyType, m: nat, u: PrivacyType, n: nat)
    requires Placeholder(t, m) == Placeholder(u, n)
    ensures t == u && m == n
  {
    hide Prefix, Decimal;
    var a, b := Placeholder(t, m), Placeholder(u, n);
    var p, q := Prefix(t), Prefix(u);
    PrefixLetters(t);
    PrefixLetters(u);
    assert a[1 + |p|] == '_' && b[1 + |q|] == '_';
    assert forall i | 0 <= i < |p| :: a[1 + i] == p[i];
    assert forall i | 0 <= i < |q| :: b[1 + i] == q[i];
    assert |p| == |q|;
    assert p == a[1..1 + |p|] && q == b[1..1 + |q|];
    assert Decimal(m) == a[2 + |p|..|a| - 1] && Decimal(n) == b[2 + |q|..|b| - 1];
    PrefixInjective(t, u);
    DecimalInjective(m, n);
  }

  /** `<` first, `>` last, and neither in between. */
  ghost predicate Shaped(key: string) {
    && |key| >= 2 && key[0] == '<' && key[|key| - 1] == '>'
    && forall i | 0 < i < |key| - 1 :: key[i] != '<' && key[i] != '>'
  }

  lemma {:induction false} PlaceholderShaped(t: PrivacyType, n: nat)
    ensures Shaped(Placeholder(t, n))
  {
    hide Prefix, Decimal;
    PrefixLetters(t);
    DecimalDigits(n);
    var key, p, d := Placeholder(t, n), Prefix(t), Decimal(n);
    forall i | 0 < i < |key| - 1 ensures key[i] != '<' && key[i] != '>' {
      if i <= |p| {
        assert key[i] == p[i - 1];
      } else if i > |p| + 1 {
        assert key[i] == d[i - |p| - 2];
      }
    }
  }

  /** Every key in use was issued by a counter, below its present value. */
  ghost predicate Issued(l: Ledger) {
    forall k | k in l.entries :: exists t, n: nat :: n < CountOf(l, t) && k == Placeholder(t, n)
  }

  lemma {:induction false} NextIsUnused(l: Ledger, t: PrivacyType)
    requires Issued(l)
    ensures Placeholder(t, CountOf(l, t)) !in l.entries
  {
    hide Placeholder;
    var key := Placeholder(t, CountOf(l, t));
    if key in l.entries {
      var u, n: nat :| n < CountOf(l, u) && key == Placeholder(u, n);
      PlaceholderInjective(t, CountOf(l, t), u, n);
    }
  }

  lemma {:induction false} MaskOneIssues(policy: PrivacyPolicy, text: string, l: Ledger, f: Finding)
    requires Issued(l)
    ensures var l' := MaskOne(policy, text, l, f).1;
            && Issued(l')
            && |l'.entries| == |l.entries| + (if ActionFor(policy, f.ptype) == Mask then 1 else 0)
            && (forall k | k in l.entries :: k in l'.entries && l'.entries[k] == l.entries[k])
  {
    hide Placeholder, BlockedPlaceholder, ReplaceFirst, ActionFor;
    var l' := MaskOne(policy, text, l, f).1;
    NextIsUnused(l, f.ptype);
    forall k | k in l'.entries ensures exists t, n: nat :: n < CountOf(l', t) && k == Placeholder(t, n) {
      if k in l.entries {
        var t, n: nat :| n < CountOf(l, t) && k == Placeholder(t, n);
        assert n < CountOf(l', t);
      } else {
        assert CountOf(l, f.ptype) < CountOf(l', f.ptype);
      }
    }
  }

  lemma {:induction false} BlockedShaped(t: PrivacyType, n: nat)
    ensures Shaped(BlockedPlaceholder(t, n))
  {
    hide Prefix, Decimal;
    PrefixLetters(t);
    DecimalDigits(n);
    var key, p, d := BlockedPlaceholder(t, n), Prefix(t), Decimal(n);
    assert key == "<BLOCKED_" + p + "_" + d + ">";
    forall i | 0 < i < |key| - 1 ensures key[i] != '<' && key[i] != '>' {
      if i < 9 {
        assert key[i] == "<BLOCKED_"[i];
      } else if i < 9 + |p| {
        assert key[i] == p[i - 9];
      } else if i > 9 + |p| {
        assert key[i] == d[i - |p| - 10];
      }
    }
  }

  lemma {:induction false} BlockedInjective(t: PrivacyType, m: nat, u: PrivacyType, n: nat)
    requires BlockedPlaceholder(t, m) == BlockedPlaceholder(u, n)
    ensures t == u && m == n
  {
    hide Prefix, Decimal;
    assert BlockedPlaceholder(t, m)[9..] == Prefix(t) + "_" + Decimal(m) + ">";
    assert BlockedPlaceholder(u, n)[9..] == Prefix(u) + "_" + Decimal(n) + ">";
    assert Placeholder(t, m) == "<" + (Prefix(t) + "_" + Decimal(m) + ">");
    assert Placeholder(u, n) == "<" + (Prefix(u) + "_" + Decimal(n) + ">");
    PlaceholderInjective(t, m, u, n);
  }

  lemma {:induction false} BlockedIsNoPlaceholder(t: PrivacyType, m: nat, u: PrivacyType, n: nat)
    ensures BlockedPlaceholder(t, m) != Placeholder(u, n)
  {
    hide Decimal;
    var a, b := BlockedPlaceholder(t, m), Placeholder(u, n);
    PrefixLetters(u);
    assert b[1 + |Prefix(u)|] == '_' && a[8] == '_' && a[1] == 'B' && a[2] == 'L';
    forall i | 1 <= i < 8 ensures 'A' <= a[i] <= 'Z' {
      assert a[i] == "<BLOCKED_"[i];
    }
    assert forall i | 0 <= i < |Prefix(u)| :: b[1 + i] == Prefix(u)[i];
  }

  // ---------------------------------------------------------- text search

  ghost predicate At(text: string, i: nat, f: string) {
    i + |f| <= |text| && text[i..i + |f|] == f
  }

  ghost predicate Contains(text: string, f: string) {
    exists i: nat :: At(text, i, f)
  }

  lemma {:induction false} AtZero(text: string, f: string)
    ensures At(text, 0, f) <==> f <= text
  {
    if |f| <= |text| {
      assert text[0..0 + |f|] == text[..|f|];
    }
  }

  lemma {:induction false} AtTail(text: string, j: nat, f: string)
    requires text != [] && j > 0
    ensures At(text, j, f) <==> At(text[1..], j - 1, f)
  {
    if j + |f| <= |text| {
      var rest := text[1..];
      assert rest[j - 1..j - 1 + |f|] == text[j..j + |f|];
    }
  }

  /** `Find` gives the first occurrence, if there is one. */
  lemma {:induction false} FindLaw(text: string, f: string)
    ensures match Find(text, f)
            case Some(i) => At(text, i, f) && forall j: nat | j < i :: !At(text, j, f)
            case None => !Contains(text, f)
  {
    if !(f <= text) && text != [] {
      FindLaw(text[1..], f);
      forall j: nat | j > 0 ensures At(text, j, f) <==> At(text[1..], j - 1, f) {
        AtTail(text, j, f);
      }
    }
  }

  // ------------------------------------------------- one entry per finding

  function MaskedCount(policy: PrivacyPolicy, findings: seq<Finding>): nat {
    if findings == [] then 0
    else (if ActionFor(policy, findings[0].ptype) == Mask then 1 else 0) + MaskedCount(policy, findings[1..])
  }

  function BatchCount(policy: PrivacyPolicy, batch: seq<Message>): nat {
    if batch == [] then 0 else MaskedCount(policy, batch[0].findings) + BatchCount(policy, batch[1..])
  }

  lemma {:induction false} MaskAllIssues(policy: PrivacyPolicy, text: string, l: Ledger, findings: seq<Finding>)
    requires Issued(l)
    ensures var l' := MaskAll(policy, text, l, findings).1;
            && Issued(l') && |l'.entries| == |l.entries| + MaskedCount(policy, findings)
            && (forall k | k in l.entries :: k in l'.entries)
    decreases |findings|
  {
    hide MaskOne, Issued;
    if findings != [] {
      var (t, m) := MaskOne(policy, text, l, findings[0]);
      MaskOneIssues(policy, text, l, findings[0]);
      MaskAllIssues(policy, t, m, findings[1..]);
    }
  }

  lemma {:induction false} BatchIssues(policy: PrivacyPolicy, l: Ledger, batch: seq<Message>)
    requires Issued(l)
    ensures var l' := MaskBatch(policy, l, batch).1;
            && Issued(l') && |l'.entries| == |l.entries| + BatchCount(policy, batch)
            && (forall k | k in l.entries :: k in l'.entries)
    decreases |batch|
  {
    hide MaskAll, Issued;
    if batch != [] {
      MaskAllIssues(policy, batch[0].text, l, batch[0].findings);
      BatchIssues(policy, MaskAll(policy, batch[0].text, l, batch[0].findings).1, batch[1..]);
    }
  }

  /** Placeholders are unique across the whole batch, whatever the findings are: each masked
      finding has an entry of its own. */
  lemma {:induction false} EveryFindingHasItsEntry(policy: PrivacyPolicy, batch: seq<Message>)
    ensures |MaskBatch(policy, NO_ENTRIES, batch).1.entries| == BatchCount(policy, batch)
  {
    hide MaskBatch, Issued;
    assert Issued(NO_ENTRIES) by { NothingIssued(); }
    BatchIssues(policy, NO_ENTRIES, batch);
  }

  lemma {:induction false} NothingIssued()
    ensures Issued(NO_ENTRIES)
  {
  }
}
