/** Masking sensitive strings with placeholders, and putting them back. */
module PrivacyEngine {
  import opened Wrappers

  // ---------------------------------------------------------------- policy

  datatype PrivacyType = Phone | IdCard | Email | BankCard | Address | Name | Generic

  datatype PrivacyAction = Mask | Block | Allow

  datatype PrivacyRule = PrivacyRule(ptype: PrivacyType, enabled: bool, action: PrivacyAction)

  datatype PrivacyPolicy = PrivacyPolicy(rules: seq<PrivacyRule>, enabled: bool)

  /** A detected string; any detector may have produced it. */
  datatype Finding = Finding(ptype: PrivacyType, original: string)

  /** The first enabled rule decides, and no rule means masking. */
  function RuleAction(rules: seq<PrivacyRule>, ptype: PrivacyType): PrivacyAction {
    if rules == [] then Mask
    else if rules[0].ptype == ptype && rules[0].enabled then rules[0].action
    else RuleAction(rules[1..], ptype)
  }

  function ActionFor(policy: PrivacyPolicy, ptype: PrivacyType): PrivacyAction {
    if !policy.enabled then Allow else RuleAction(policy.rules, ptype)
  }

  // ---------------------------------------------------------- placeholders

  function Prefix(ptype: PrivacyType): string {
    match ptype
    case Phone => "PHONE"
    case IdCard => "IDCARD"
    case Email => "EMAIL"
    case BankCard => "BANKCARD"
    case Address => "ADDRESS"
    case Name => "NAME"
    case Generic => "SENSITIVE"
  }

  function Digit(d: nat): char
    requires d < 10
  {
    '0' + d as char
  }

  function Decimal(n: nat): string {
    if n < 10 then [Digit(n)] else Decimal(n / 10) + [Digit(n % 10)]
  }

  function Placeholder(ptype: PrivacyType, n: nat): string {
    "<" + Prefix(ptype) + "_" + Decimal(n) + ">"
  }

  function BlockedPlaceholder(ptype: PrivacyType, n: nat): string {
    "<BLOCKED_" + Prefix(ptype) + "_" + Decimal(n) + ">"
  }

  // ---------------------------------------------------------- text search

  function Find(text: string, pattern: string): Option<nat> {
    if pattern <= text then Some(0)
    else if text == [] then None
    else match Find(text[1..], pattern)
      case None => None
      case Some(i) => Some(i + 1)
  }

  function ReplaceFirst(text: string, pattern: string, put: string): string {
    match Find(text, pattern)
    case None => text
    case Some(i) => if i + |pattern| <= |text| then text[..i] + put + text[i + |pattern|..] else text
  }

  /** Left to right, without overlaps. */
  function ReplaceAll(text: string, pattern: string, put: string): string
    requires pattern != []
    decreases |text|
  {
    if text == [] then []
    else if pattern <= text then put + ReplaceAll(text[|pattern|..], pattern, put)
    else [text[0]] + ReplaceAll(text[1..], pattern, put)
  }

  // --------------------------------------------------------------- masking

  /** What one provider payload shares across its messages. */
  datatype Ledger = Ledger(counters: map<PrivacyType, nat>, entries: map<string, string>)

  const NO_ENTRIES := Ledger(map[], map[])

  function CountOf(l: Ledger, ptype: PrivacyType): nat {
    if ptype in l.counters then l.counters[ptype] else 0
  }

  function MaskOne(policy: PrivacyPolicy, text: string, l: Ledger, f: Finding): (string, Ledger) {
    var n := CountOf(l, f.ptype);
    match ActionFor(policy, f.ptype)
    case Allow => (text, l)
    case Block => (ReplaceFirst(text, f.original, BlockedPlaceholder(f.ptype, n)), l.(counters := l.counters[f.ptype := n + 1]))
    case Mask =>
      var placeholder := Placeholder(f.ptype, n);
      (ReplaceFirst(text, f.original, placeholder),
       Ledger(l.counters[f.ptype := n + 1], l.entries[placeholder := f.original]))
  }

  /** The findings in the order in which they are replaced. */
  function MaskAll(policy: PrivacyPolicy, text: string, l: Ledger, findings: seq<Finding>): (string, Ledger)
    decreases |findings|
  {
    if findings == [] then (text, l)
    else
      var (t, m) := MaskOne(policy, text, l, findings[0]);
      MaskAll(policy, t, m, findings[1..])
  }

  /** Each message with the findings of its own detection. */
  datatype Message = Message(text: string, findings: seq<Finding>)

  function MaskBatch(policy: PrivacyPolicy, l: Ledger, batch: seq<Message>): (seq<string>, Ledger)
    decreases |batch|
  {
    if batch == [] then ([], l)
    else
      var (t, m) := MaskAll(policy, batch[0].text, l, batch[0].findings);
      var (ts, last) := MaskBatch(policy, m, batch[1..]);
      ([t] + ts, last)
  }

  /** Put the originals back, key by key, in the order given. */
  function Restore(text: string, entries: map<string, string>, order: seq<string>): string
    requires [] !in order
    decreases |order|
  {
    if order == [] then text
    else
      var key := order[0];
      Restore(if key in entries then ReplaceAll(text, key, entries[key]) else text, entries, order[1..])
  }

  /** A disabled policy leaves a message and the shared state as they are. */
  lemma {:induction false} DisabledMasksNothing(policy: PrivacyPolicy, text: string, l: Ledger, findings: seq<Finding>)
    requires !policy.enabled
    ensures MaskAll(policy, text, l, findings) == (text, l)
    decreases |findings|
  {
    if findings != [] {
      DisabledMasksNothing(policy, text, l, findings[1..]);
    }
  }

  // ------------------------------------------------------------ the object

  /** The counters and the map that a batch hands from message to message. */
  class MaskState {
    var counters: map<PrivacyType, nat>
    var entries: map<string, string>

    function View(): Ledger
      reads this
    {
      Ledger(counters, entries)
    }

    constructor ()
      ensures View() == NO_ENTRIES
    {
      counters, entries := map[], map[];
    }

    /** `findings` are those of the message, in the order of the sort. */
    method DesensitizeWithState(policy: PrivacyPolicy, message: string, findings: seq<Finding>) returns (text: string)
      modifies this
      ensures (text, View()) == MaskAll(policy, message, old(View()), findings)
    {
      hide ReplaceFirst, Placeholder, BlockedPlaceholder, RuleAction;
      text := message;
      if !policy.enabled {
        DisabledMasksNothing(policy, message, View(), findings);
        return;
      }
      for i := 0 to |findings|
        invariant MaskAll(policy, message, old(View()), findings) == MaskAll(policy, text, View(), findings[i..])
      {
        var ptype, original := findings[i].ptype, findings[i].original;
        var count := if ptype in counters then counters[ptype] else 0;
        match ActionFor(policy, ptype) {
          case Allow =>
          case Block =>
            counters := counters[ptype := count + 1];
            text := ReplaceFirst(text, original, BlockedPlaceholder(ptype, count));
          case Mask =>
            var placeholder := Placeholder(ptype, count);
            counters := counters[ptype := count + 1];
            entries := entries[placeholder := original];
            text := ReplaceFirst(text, original, placeholder);
        }
        assert findings[i..][1..] == findings[i + 1..];
      }
    }
  }

  method DesensitizeBatch(policy: PrivacyPolicy, batch: seq<Message>) returns (masked: seq<string>, entries: map<string, string>)
    ensures var (texts, l) := MaskBatch(policy, NO_ENTRIES, batch); masked == texts && entries == l.entries
  {
    hide MaskAll;
    var state := new MaskState();
    masked := [];
    assert batch[0..] == batch;
    assert [] + MaskBatch(policy, NO_ENTRIES, batch).0 == MaskBatch(policy, NO_ENTRIES, batch).0;
    for i := 0 to |batch|
      invariant var (texts, l) := MaskBatch(policy, state.View(), batch[i..]);
                MaskBatch(policy, NO_ENTRIES, batch) == (masked + texts, l)
    {
      ghost var before := masked;
      var text := state.DesensitizeWithState(policy, batch[i].text, batch[i].findings);
      masked := masked + [text];
      assert batch[i..][1..] == batch[i + 1..];
      ghost var rest := MaskBatch(policy, state.View(), batch[i + 1..]).0;
      assert before + ([text] + rest) == masked + rest;
    }
    entries := state.entries;
    assert masked + [] == masked;
  }

  method Reconstruct(message: string, entries: map<string, string>, keys: seq<string>) returns (text: string)
    requires [] !in keys
    ensures text == Restore(message, entries, keys)
  {
    hide ReplaceAll;
    text := message;
    for i := 0 to |keys|
      invariant Restore(message, entries, keys) == Restore(text, entries, keys[i..])
    {
      assert keys[i..][0] == keys[i] && keys[i..][1..] == keys[i + 1..];
      if keys[i] in entries {
        text := ReplaceAll(text, keys[i], entries[keys[i]]);
      }
    }
  }
}
