/** Which rule decides what happens to a finding, and what a batch therefore enters into its map. */
module PrivacyRules {
  import opened Wrappers
  import opened PrivacyEngine
  import opened PrivacyPlaceholders

  /** Rule `i` is enabled and for this type. */
  predicate Applies(policy: PrivacyPolicy, t: PrivacyType, i: nat) {
    i < |policy.rules| && policy.rules[i].enabled && policy.rules[i].ptype == t
  }

  ghost predicate Decides(policy: PrivacyPolicy, t: PrivacyType, i: nat) {
    Applies(policy, t, i) && forall j: nat | j < i :: !Applies(policy, t, j)
  }

  ghost predicate Unruled(policy: PrivacyPolicy, t: PrivacyType) {
    forall i: nat :: !Applies(policy, t, i)
  }

  lemma {:induction false} FirstRule(rules: seq<PrivacyRule>, t: PrivacyType) returns (i: nat)
    ensures i <= |rules| && forall j | 0 <= j < i :: !(rules[j].enabled && rules[j].ptype == t)
    ensures if i < |rules| then rules[i].enabled && rules[i].ptype == t && RuleAction(rules, t) == rules[i].action
            else RuleAction(rules, t) == Mask
  {
    if rules == [] || (rules[0].ptype == t && rules[0].enabled) {
      i := 0;
    } else {
      var k := FirstRule(rules[1..], t);
      forall j | 0 <= j < k + 1 ensures !(rules[j].enabled && rules[j].ptype == t) {
        if j > 0 { assert rules[1..][j - 1] == rules[j]; }
      }
      i := k + 1;
    }
  }

  /** The first enabled rule for a type decides what an enabled policy does to its findings, and without one
      they are masked; a disabled policy lets everything through. */
  lemma {:induction false} FirstRuleDecides(policy: PrivacyPolicy, t: PrivacyType)
    ensures !policy.enabled ==> ActionFor(policy, t) == Allow
    ensures policy.enabled ==> forall i: nat | Decides(policy, t, i) :: ActionFor(policy, t) == policy.rules[i].action
    ensures policy.enabled && Unruled(policy, t) ==> ActionFor(policy, t) == Mask
    ensures Unruled(policy, t) || exists i: nat :: Decides(policy, t, i)
  {
    var k := FirstRule(policy.rules, t);
    if k < |policy.rules| {
      assert Decides(policy, t, k);
      forall i: nat | Decides(policy, t, i) ensures i == k { }
    }
  }

  /** What is entered into the map, by the rules alone. */
  ghost predicate MasksType(policy: PrivacyPolicy, t: PrivacyType) {
    policy.enabled && (Unruled(policy, t) || exists i: nat :: Decides(policy, t, i) && policy.rules[i].action == Mask)
  }

  lemma {:induction false} MasksExactly(policy: PrivacyPolicy, t: PrivacyType)
    ensures MasksType(policy, t) <==> ActionFor(policy, t) == Mask
  {
    hide Decides, Unruled, ActionFor;
    FirstRuleDecides(policy, t);
    if !Unruled(policy, t) {
      var i: nat :| Decides(policy, t, i);
    }
  }

  // ------------------------------------------------------------- the entries

  /** What was found of a type, in order. */
  function OfType(findings: seq<Finding>, t: PrivacyType): seq<string> {
    if findings == [] then []
    else
      var last := findings[|findings| - 1];
      OfType(findings[..|findings| - 1], t) + if last.ptype == t then [last.original] else []
  }

  function AllFindings(batch: seq<Message>): seq<Finding> {
    if batch == [] then [] else batch[0].findings + AllFindings(batch[1..])
  }

  /** The map holds the findings of each masked type under its placeholders, numbered in order. */
  ghost predicate Entered(policy: PrivacyPolicy, l: Ledger, found: seq<Finding>) {
    && (forall t | ActionFor(policy, t) != Allow :: CountOf(l, t) == |OfType(found, t)|)
    && (forall t, n: nat | ActionFor(policy, t) == Mask && n < |OfType(found, t)| ::
          Placeholder(t, n) in l.entries && l.entries[Placeholder(t, n)] == OfType(found, t)[n])
    && (forall k | k in l.entries :: exists t, n: nat :: ActionFor(policy, t) == Mask && n < |OfType(found, t)| && k == Placeholder(t, n))
  }

  lemma {:induction false} OfTypeSnoc(found: seq<Finding>, f: Finding, t: PrivacyType)
    ensures OfType(found + [f], t) == OfType(found, t) + if f.ptype == t then [f.original] else []
  {
    assert (found + [f])[..|found|] == found;
  }

  lemma {:induction false} OneEntered(policy: PrivacyPolicy, text: string, l: Ledger, found: seq<Finding>, f: Finding)
    requires Entered(policy, l, found)
    ensures Entered(policy, MaskOne(policy, text, l, f).1, found + [f])
  {
    hide Placeholder, BlockedPlaceholder, ReplaceFirst, ActionFor, OfType;
    var l' := MaskOne(policy, text, l, f).1;
    forall t ensures OfType(found + [f], t) == OfType(found, t) + if f.ptype == t then [f.original] else [] {
      OfTypeSnoc(found, f, t);
    }
    if ActionFor(policy, f.ptype) == Mask {
      forall t, n: nat | ActionFor(policy, t) == Mask && n < |OfType(found, t)| ensures Placeholder(t, n) != Placeholder(f.ptype, CountOf(l, f.ptype)) {
        OtherPlaceholder(policy, l, found, f, t, n);
      }
    }
    NoOthers(policy, text, l, found, f);
  }

  lemma {:induction false} NoOthers(policy: PrivacyPolicy, text: string, l: Ledger, found: seq<Finding>, f: Finding)
    requires Entered(policy, l, found)
    ensures forall k | k in MaskOne(policy, text, l, f).1.entries ::
              exists t, n: nat :: ActionFor(policy, t) == Mask && n < |OfType(found + [f], t)| && k == Placeholder(t, n)
  {
    hide Placeholder, BlockedPlaceholder, ReplaceFirst, ActionFor, OfType;
    var l' := MaskOne(policy, text, l, f).1;
    forall k | k in l'.entries ensures exists t, n: nat :: ActionFor(policy, t) == Mask && n < |OfType(found + [f], t)| && k == Placeholder(t, n) {
      if k in l.entries {
        var t, n: nat :| ActionFor(policy, t) == Mask && n < |OfType(found, t)| && k == Placeholder(t, n);
        OfTypeSnoc(found, f, t);
      } else {
        OfTypeSnoc(found, f, f.ptype);
        assert k == Placeholder(f.ptype, CountOf(l, f.ptype));
      }
    }
  }

  /** A new placeholder is none of those in use. */
  lemma {:induction false} OtherPlaceholder(policy: PrivacyPolicy, l: Ledger, found: seq<Finding>, f: Finding, t: PrivacyType, n: nat)
    requires Entered(policy, l, found) && n < |OfType(found, t)| && ActionFor(policy, f.ptype) != Allow
    ensures Placeholder(t, n) != Placeholder(f.ptype, CountOf(l, f.ptype))
  {
    hide Placeholder, OfType, ActionFor;
    if Placeholder(t, n) == Placeholder(f.ptype, CountOf(l, f.ptype)) {
      PlaceholderInjective(t, n, f.ptype, CountOf(l, f.ptype));
    }
  }

  lemma {:induction false} AllEntered(policy: PrivacyPolicy, text: string, l: Ledger, found: seq<Finding>, findings: seq<Finding>)
    requires Entered(policy, l, found)
    ensures Entered(policy, MaskAll(policy, text, l, findings).1, found + findings)
    decreases |findings|
  {
    hide Entered, MaskOne;
    if findings == [] {
      assert found + findings == found;
    } else {
      var (t, m) := MaskOne(policy, text, l, findings[0]);
      OneEntered(policy, text, l, found, findings[0]);
      AllEntered(policy, t, m, found + [findings[0]], findings[1..]);
      assert found + [findings[0]] + findings[1..] == found + findings;
    }
  }

  lemma {:induction false} BatchEntered(policy: PrivacyPolicy, l: Ledger, found: seq<Finding>, batch: seq<Message>)
    requires Entered(policy, l, found)
    ensures Entered(policy, MaskBatch(policy, l, batch).1, found + AllFindings(batch))
    decreases |batch|
  {
    hide Entered, MaskAll;
    if batch == [] {
      assert found + [] == found;
    } else {
      AllEntered(policy, batch[0].text, l, found, batch[0].findings);
      BatchEntered(policy, MaskAll(policy, batch[0].text, l, batch[0].findings).1, found + batch[0].findings, batch[1..]);
      assert found + batch[0].findings + AllFindings(batch[1..]) == found + AllFindings(batch);
    }
  }

  /** The map of a batch, exactly: for every type that the deciding rule masks, and for no other, each finding of
      the batch is there under the type's placeholder with its number among them. */
  lemma {:induction false} EntriesExactly(policy: PrivacyPolicy, batch: seq<Message>, k: string, original: string)
    ensures var entries, found := MaskBatch(policy, NO_ENTRIES, batch).1.entries, AllFindings(batch);
            k in entries && entries[k] == original
            <==> exists t, n: nat :: MasksType(policy, t) && n < |OfType(found, t)| && k == Placeholder(t, n) && original == OfType(found, t)[n]
  {
    hide MaskBatch, Placeholder, MasksType, ActionFor, AllFindings;
    var l, found := MaskBatch(policy, NO_ENTRIES, batch).1, AllFindings(batch);
    NothingEntered(policy);
    BatchEntered(policy, NO_ENTRIES, [], batch);
    assert [] + found == found;
    forall t ensures MasksType(policy, t) <==> ActionFor(policy, t) == Mask { MasksExactly(policy, t); }
    if k in l.entries {
      var t, n: nat :| ActionFor(policy, t) == Mask && n < |OfType(found, t)| && k == Placeholder(t, n);
    }
  }

  lemma {:induction false} NothingEntered(policy: PrivacyPolicy)
    ensures Entered(policy, NO_ENTRIES, [])
  {
  }

  /** A finding whose deciding rule blocks it or lets it through has no entry, whatever else the batch holds. */
  lemma {:induction false} NoEntryUnlessMasked(policy: PrivacyPolicy, batch: seq<Message>, t: PrivacyType, i: nat, n: nat)
    requires Decides(policy, t, i) && policy.rules[i].action != Mask
    ensures Placeholder(t, n) !in MaskBatch(policy, NO_ENTRIES, batch).1.entries
  {
    hide MaskBatch, Placeholder, ActionFor, AllFindings, Decides;
    var entries, k := MaskBatch(policy, NO_ENTRIES, batch).1.entries, Placeholder(t, n);
    FirstRuleDecides(policy, t);
    MasksExactly(policy, t);
    if k in entries {
      EntriesExactly(policy, batch, k, entries[k]);
      var u, m: nat :| MasksType(policy, u) && m < |OfType(AllFindings(batch), u)| && k == Placeholder(u, m);
      PlaceholderInjective(t, n, u, m);
    }
  }

  // ---------------------------------------------------------------- the text

  /** A finding is replaced where it first occurs, by the placeholder of its action with the type's next number;
      one that is let through or does not occur leaves the text as it is. */
  lemma {:induction false} FindingIsReplaced(policy: PrivacyPolicy, text: string, l: Ledger, f: Finding, p: nat)
    requires At(text, p, f.original) && forall j: nat | j < p :: !At(text, j, f.original)
    ensures var text' := MaskOne(policy, text, l, f).0;
            var name := match f.ptype
                        case Phone => "PHONE"
                        case IdCard => "IDCARD"
                        case Email => "EMAIL"
                        case BankCard => "BANKCARD"
                        case Address => "ADDRESS"
                        case Name => "NAME"
                        case Generic => "SENSITIVE";
            var tag := name + "_" + Decimal(CountOf(l, f.ptype)) + ">";
            text' == match ActionFor(policy, f.ptype)
                     case Allow => text
                     case Block => text[..p] + ("<BLOCKED_" + tag) + text[p + |f.original|..]
                     case Mask => text[..p] + ("<" + tag) + text[p + |f.original|..]
  {
    hide Decimal, ActionFor, At, Find;
    FindLaw(text, f.original);
    AtBounds(text, p, f.original);
    assert Find(text, f.original) == Some(p) by { FoundFirst(text, f.original, p); }
    var tag := Prefix(f.ptype) + "_" + Decimal(CountOf(l, f.ptype)) + ">";
    assert BlockedPlaceholder(f.ptype, CountOf(l, f.ptype)) == "<BLOCKED_" + tag;
    assert Placeholder(f.ptype, CountOf(l, f.ptype)) == "<" + tag;
  }

  lemma {:induction false} AtBounds(text: string, p: nat, f: string)
    requires At(text, p, f)
    ensures p + |f| <= |text|
  {
  }

  lemma {:induction false} FoundFirst(text: string, f: string, p: nat)
    requires At(text, p, f) && forall j: nat | j < p :: !At(text, j, f)
    ensures Find(text, f) == Some(p)
  {
    hide At, Find;
    FindLaw(text, f);
    assert Contains(text, f);
  }

  /** A disabled policy leaves a batch as it is. */
  lemma {:induction false} DisabledBatch(policy: PrivacyPolicy, l: Ledger, batch: seq<Message>)
    requires !policy.enabled
    ensures MaskBatch(policy, l, batch).1 == l && |MaskBatch(policy, l, batch).0| == |batch|
    ensures forall i | 0 <= i < |batch| :: MaskBatch(policy, l, batch).0[i] == batch[i].text
    decreases |batch|
  {
    hide MaskAll;
    if batch != [] {
      DisabledMasksNothing(policy, batch[0].text, l, batch[0].findings);
      DisabledBatch(policy, l, batch[1..]);
    }
  }

  // ------------------------------------------------------ the default policy

  const DEFAULT := PrivacyPolicy([
    PrivacyRule(Phone, true, Mask), PrivacyRule(IdCard, true, Block), PrivacyRule(Email, true, Mask),
    PrivacyRule(BankCard, true, Block), PrivacyRule(Address, true, Mask), PrivacyRule(Name, true, Mask),
    PrivacyRule(Generic, false, Mask)], true)

  /** By default ids and bank cards are blocked, and everything else is masked. */
  lemma {:induction false} DefaultActions(t: PrivacyType)
    ensures ActionFor(DEFAULT, t) == if t == IdCard || t == BankCard then Block else Mask
  {
    hide ActionFor;
    FirstRuleDecides(DEFAULT, t);
    match t {
      case Phone => assert Decides(DEFAULT, t, 0);
      case IdCard => assert Decides(DEFAULT, t, 1);
      case Email => assert Decides(DEFAULT, t, 2);
      case BankCard => assert Decides(DEFAULT, t, 3);
      case Address => assert Decides(DEFAULT, t, 4);
      case Name => assert Decides(DEFAULT, t, 5);
      case Generic => assert Unruled(DEFAULT, t);
    }
  }

  /** An id in a message is gone for good under the default policy: the text says only that it was blocked,
      and nothing is kept to put it back. */
  lemma {:induction false} IdIsBlocked(before: string, id: string, after: string)
    requires forall j: nat | j < |before| :: !At(before + id + after, j, id)
    ensures var (texts, l) := MaskBatch(DEFAULT, NO_ENTRIES, [Message(before + id + after, [Finding(IdCard, id)])]);
            texts == [before + "<BLOCKED_IDCARD_0>" + after] && l.entries == map[]
  {
    hide ActionFor, ReplaceFirst, Find;
    var text, f := before + id + after, Finding(IdCard, id);
    assert text[|before|..|before| + |id|] == id;
    FindingIsReplaced(DEFAULT, text, NO_ENTRIES, f, |before|);
    DefaultActions(IdCard);
    FirstTag();
    assert text[..|before|] == before && text[|before| + |id|..] == after;
    OneFindingBatch(DEFAULT, text, f);
  }

  lemma {:induction false} FirstTag()
    ensures "<BLOCKED_" + (Prefix(IdCard) + "_" + Decimal(0) + ">") == "<BLOCKED_IDCARD_0>"
  {
    assert Decimal(0) == "0";
  }

  lemma {:induction false} OneFindingBatch(policy: PrivacyPolicy, text: string, f: Finding)
    ensures var (t, l) := MaskOne(policy, text, NO_ENTRIES, f);
            MaskBatch(policy, NO_ENTRIES, [Message(text, [f])]) == ([t], l)
  {
    hide MaskOne;
    var m := Message(text, [f]);
    assert [m][1..] == [] && [f][1..] == [];
    var (t, l) := MaskOne(policy, text, NO_ENTRIES, f);
    assert MaskAll(policy, text, NO_ENTRIES, [f]) == (t, l);
    assert MaskBatch(policy, l, []) == ([], l) && [t] + [] == [t];
  }
}
