/** Properties of the rule parser: the envelope, the two result formats, when
    actions are committed, how the slots carry over, and how fields accumulate. */
module ParserProperties {
  import opened Strings
  import opened Assoc
  import opened JsonString
  import opened Rules
  import opened RuleParser

  /** The events a JSON array of strings under list field f yields, its
      elements numbered from `from`. */
  function ListEvents(f: ListField, xs: seq<string>, from: nat): (r: seq<Event>)
    ensures |r| == |xs|
    decreases |xs|
  {
    if |xs| == 0 then []
    else [Event(ListPrefix(f) + NatToString(from), Encode(xs[0]))] + ListEvents(f, xs[1..], from + 1)
  }

  /** The elements the parser keeps from a list: all of them, except that
      models and types drop empty strings. */
  function Kept(f: ListField, xs: seq<string>): (r: seq<string>)
    ensures |r| <= |xs|
  {
    if |xs| == 0 then []
    else (if KeepsItem(f, xs[0]) then [xs[0]] else []) + Kept(f, xs[1..])
  }

  /** Kept drops exactly the elements the parser would not keep. */
  lemma {:induction false} KeptFilters(f: ListField, xs: seq<string>)
    ensures forall x :: x in Kept(f, xs) <==> x in xs && KeepsItem(f, x)
    ensures (forall i :: 0 <= i < |xs| ==> KeepsItem(f, xs[i])) ==> Kept(f, xs) == xs
    decreases |xs|
  {
    if |xs| > 0 {
      KeptFilters(f, xs[1..]);
      assert xs == [xs[0]] + xs[1..];
      if forall i :: 0 <= i < |xs| ==> KeepsItem(f, xs[i]) {
        assert forall i :: 0 <= i < |xs[1..]| ==> KeepsItem(f, xs[1..][i]) by {
          forall i | 0 <= i < |xs[1..]| ensures KeepsItem(f, xs[1..][i]) {
            assert xs[1..][i] == xs[i + 1];
          }
        }
      }
    }
  }

  /** The rule after appending the kept elements of xs to list f one by one. */
  function AppendKept(r: Rule, f: ListField, xs: seq<string>): (r': Rule)
    ensures FieldOf(r', f) == FieldOf(r, f) + Kept(f, xs)
    ensures Clear(r', f) == Clear(r, f)
    decreases |xs|
  {
    if |xs| == 0 then r
    else
      var r1 := if KeepsItem(f, xs[0]) then AppendTo(r, f, xs[0]) else r;
      KeptHead(f, xs);
      assert FieldOf(r, f) + (if KeepsItem(f, xs[0]) then [xs[0]] else []) + Kept(f, xs[1..])
          == FieldOf(r, f) + Kept(f, xs);
      AppendKept(r1, f, xs[1..])
  }

  lemma KeptHead(f: ListField, xs: seq<string>)
    requires |xs| > 0
    ensures Kept(f, xs) == (if KeepsItem(f, xs[0]) then [xs[0]] else []) + Kept(f, xs[1..])
  {
  }

  lemma ListItemStep(st: ParserState, f: ListField, n: nat, x: string)
    ensures Step(st, Event(ListPrefix(f) + NatToString(n), Encode(x)))
         == if KeepsItem(f, x) then st.(rule := AppendTo(st.rule, f, x)) else st
  {
    var loc := ListPrefix(f) + NatToString(n);
    assert loc[0] == ListPrefix(f)[0];
    NotEnvelope(loc);
    ClassifyList(f, NatToString(n));
    DecodeEncode(x);
    ListLeafStep(st, loc, f, Encode(x), x);
  }

  /** A list element event whose value decodes to x appends x when the list keeps it. */
  lemma ListLeafStep(st: ParserState, loc: string, f: ListField, value: string, x: string)
    requires StripEnvelope(loc) == loc && Classify(loc) == ListItem(f) && Decode(value) == Some(x)
    ensures Step(st, Event(loc, value)) == if KeepsItem(f, x) then st.(rule := AppendTo(st.rule, f, x)) else st
  {
  }

  lemma FoldCons(st: ParserState, evs: seq<Event>)
    requires |evs| > 0
    ensures Fold(st, evs) == Fold(Step(st, evs[0]), evs[1..])
  {
  }

  /** Folding three events is three steps. */
  lemma Fold3(st: ParserState, a: Event, b: Event, c: Event)
    ensures Fold(st, [a, b, c]) == Step(Step(Step(st, a), b), c)
  {
    FoldCons(st, [a, b, c]);
    assert [a, b, c][1..] == [b, c];
    FoldCons(Step(st, a), [b, c]);
    assert [b, c][1..] == [c];
    FoldCons(Step(Step(st, a), b), [c]);
  }

  /** Array elements are appended to their list in arrival order; empty
      models and types are skipped; nothing else changes. */
  lemma {:induction false} ListAccumulates(st: ParserState, f: ListField, xs: seq<string>, from: nat)
    ensures Fold(st, ListEvents(f, xs, from)) == st.(rule := AppendKept(st.rule, f, xs))
    decreases |xs|
  {
    if |xs| > 0 {
      var evs := ListEvents(f, xs, from);
      assert evs[0] == Event(ListPrefix(f) + NatToString(from), Encode(xs[0]));
      assert evs[1..] == ListEvents(f, xs[1..], from + 1);
      ListItemStep(st, f, from, xs[0]);
      FoldCons(st, evs);
      ListAccumulates(Step(st, evs[0]), f, xs[1..], from + 1);
    }
  }

  /** A locator with the `flexible/` envelope is handled exactly like the same
      locator without it (unless that locator itself starts with the envelope,
      which is stripped only once). */
  lemma EnvelopeTransparent(st: ParserState, loc: string, value: string)
    requires !HasPrefix(loc, Envelope)
    ensures Step(st, Event(Envelope + loc, value)) == Step(st, Event(loc, value))
  {
    PrefixOf(Envelope, loc);
  }

  lemma ResultLeafClass(key: string, mid: string, leaf: string)
    ensures var loc := "results/" + key + "/" + mid + "/" + leaf;
      StripEnvelope(loc) == loc && Classify(loc) == ResultLeaf
  {
    var loc := "results/" + key + "/" + mid + "/" + leaf;
    var t := key + "/" + mid + "/" + leaf;
    assert loc == "results/" + t;
    assert loc[0] == 'r';
    NotEnvelope(loc);
    ClassifyResult(t);
  }

  lemma ResultLeafKey(key: string, mid: string, leaf: string)
    requires '/' !in key
    ensures var loc := "results/" + key + "/" + mid + "/" + leaf;
      HasPrefix(loc, "results/") && ResultKeyOf(loc) == Some(key)
  {
    var loc := "results/" + key + "/" + mid + "/" + leaf;
    var t := key + "/" + mid + "/" + leaf;
    assert loc == "results/" + t;
    PrefixOf("results/", t);
    assert t[..|key|] == key;
    assert t[|key|] == '/';
    IndexOfAt(t, '/', |key|);
  }

  /** Facts about a result locator `results/<key>/<mid>/<leaf>`. */
  lemma ResultLeafFacts(key: string, mid: string, leaf: string)
    requires '/' !in key && '/' !in leaf
    ensures var loc := "results/" + key + "/" + mid + "/" + leaf;
      && StripEnvelope(loc) == loc
      && Classify(loc) == ResultLeaf
      && HasPrefix(loc, "results/")
      && LastSegment(loc) == leaf
      && ResultKeyOf(loc) == Some(key)
  {
    ResultLeafClass(key, mid, leaf);
    ResultLeafKey(key, mid, leaf);
    LastSegmentAfterSlash("results/" + key + "/" + mid, leaf);
  }

  /** Facts about a new-format action leaf locator. */
  lemma ActionLeafFacts(key: string, i: nat, leaf: string)
    requires '/' !in key && '/' !in leaf && |leaf| > 0 && !IsDigit(leaf[0])
    ensures var loc := ActionLocator(key, i, leaf);
      && StripEnvelope(loc) == loc
      && Classify(loc) == ResultLeaf
      && HasPrefix(loc, "results/")
      && LastSegment(loc) == leaf
      && !OldFormatLeaf(loc)
      && ResultKeyOf(loc) == Some(key)
  {
    var head := "results/" + key;
    var n := NatToString(i);
    ActionSlashes();
    assert ActionLocator(key, i, leaf) == head + ("/" + "action/") + n + "/" + leaf;
    Regroup(head, "/", "action/", n, "/", leaf);
    ResultLeafFacts(key, "action/" + n, leaf);
  }

  /** The literal `/action/` in its parts. */
  lemma ActionSlashes()
    ensures "/action/" == "/" + "action/" == "/" + "action" + "/"
  {
  }

  /** Regrouping a concatenation whose middle has three parts. */
  lemma Regroup3(a: string, x: string, y: string, z: string, d: string)
    ensures a + (x + y + z) + d == a + x + y + z + d
  {
  }

  /** Regrouping a six-part concatenation. */
  lemma Regroup(a: string, b: string, c: string, d: string, e: string, f: string)
    ensures a + (b + c) + d + e + f == a + b + (c + d) + e + f
  {
  }

  /** A result leaf named `action`, `asset` or `mode` that is not an old-format
      leaf fills its slot under its key. */
  lemma SlotLeafStep(st: ParserState, loc: string, key: string, leaf: string, value: string)
    requires StripEnvelope(loc) == loc && Classify(loc) == ResultLeaf && HasPrefix(loc, "results/")
    requires LastSegment(loc) == leaf && ResultKeyOf(loc) == Some(key) && !OldFormatLeaf(loc)
    requires leaf == "action" || leaf == "asset" || leaf == "mode"
    ensures Step(st, Event(loc, value)) == Settle(st, Some(key), FillSlot(st.slots, leaf, Decode(value)))
  {
  }

  /** An event on leaf `action`, `asset` or `mode` of an action object under
      key fills that slot and settles under that key. */
  lemma ActionStep(st: ParserState, key: string, i: nat, leaf: string, value: string)
    requires '/' !in key && (leaf == "action" || leaf == "asset" || leaf == "mode")
    ensures Step(st, Event(ActionLocator(key, i, leaf), value))
         == Settle(st, Some(key), FillSlot(st.slots, leaf, Decode(value)))
  {
    var loc := ActionLocator(key, i, leaf);
    ActionLeafFacts(key, i, leaf);
    assert !OldFormatLeaf(loc);
    SlotLeafStep(st, loc, key, leaf, value);
  }

  /** The middle part of a three-part concatenation. */
  lemma SliceMiddle(a: string, b: string, c: string)
    ensures (a + b + c)[|a|..|a| + |b|] == b
  {
    assert forall i :: 0 <= i < |b| ==> (a + b + c)[|a| + i] == b[i];
  }

  /** In an old-format locator, `action` sits right before the last slash. */
  lemma OldLeafSlice(key: string, d: string)
    ensures var loc := "results/" + key + "/action/" + d;
      var p := |loc| - |d|;
      p >= 7 && loc[p - 7..p - 1] == "action"
  {
    var a := "results/" + key + "/";
    var loc := "results/" + key + "/action/" + d;
    assert loc == a + "action" + ("/" + d);
    SliceMiddle(a, "action", "/" + d);
  }

  /** An old-format locator is recognised as such. */
  lemma OldLeafFacts(key: string, d: string)
    requires '/' !in key && '/' !in d && |d| > 0 && IsDigit(d[0])
    ensures var loc := "results/" + key + "/action/" + d;
      && StripEnvelope(loc) == loc
      && Classify(loc) == ResultLeaf
      && HasPrefix(loc, "results/")
      && OldFormatLeaf(loc)
      && ResultKeyOf(loc) == Some(key)
  {
    var head := "results/" + key;
    ActionSlashes();
    assert head + "/action/" + d == head + ("/" + "action" + "/") + d;
    Regroup3(head, "/", "action", "/", d);
    ResultLeafFacts(key, "action", d);
    OldLeafSlice(key, d);
  }

  /** An old-format locator fills the action slot under its key. */
  lemma OldFormatStep(st: ParserState, key: string, d: string, value: string)
    requires '/' !in key && '/' !in d && |d| > 0 && IsDigit(d[0])
    ensures Step(st, Event("results/" + key + "/action/" + d, value))
         == Settle(st, Some(key), FillSlot(st.slots, "action", Decode(value)))
  {
    OldLeafFacts(key, d);
    OldLeafStep(st, "results/" + key + "/action/" + d, key, value);
  }

  /** A result leaf in the old format fills the action slot under its key. */
  lemma OldLeafStep(st: ParserState, loc: string, key: string, value: string)
    requires StripEnvelope(loc) == loc && Classify(loc) == ResultLeaf && HasPrefix(loc, "results/")
    requires OldFormatLeaf(loc) && ResultKeyOf(loc) == Some(key)
    ensures Step(st, Event(loc, value)) == Settle(st, Some(key), FillSlot(st.slots, "action", Decode(value)))
  {
  }

  /** A new-format action leaf under any middle part fills the action slot
      under its key. */
  lemma NewFormatStep(st: ParserState, key: string, d: string, value: string)
    requires '/' !in key
    ensures Step(st, Event("results/" + key + "/action/" + d + "/action", value))
         == Settle(st, Some(key), FillSlot(st.slots, "action", Decode(value)))
  {
    var newLoc := "results/" + key + "/action/" + d + "/action";
    assert newLoc == "results/" + key + "/" + ("action/" + d) + "/" + "action";
    ResultLeafFacts(key, "action/" + d, "action");
    assert !OldFormatLeaf(newLoc);
    SlotLeafStep(st, newLoc, key, "action", value);
  }

  /** Old format `results/<key>/action/<digit...>` fills the action slot just
      as the new format `results/<key>/action/<n>/action` does, under the same key. */
  lemma OldFormatLikeNew(st: ParserState, key: string, d: string, value: string)
    requires '/' !in key && '/' !in d && |d| > 0 && IsDigit(d[0])
    ensures Step(st, Event("results/" + key + "/action/" + d, value))
         == Step(st, Event("results/" + key + "/action/" + d + "/action", value))
  {
    OldFormatStep(st, key, d, value);
    NewFormatStep(st, key, d, value);
  }

  /** An `EMAIL` or `SMS` action is committed as soon as its action leaf
      arrives, whatever the slots held, and the slots are emptied. */
  lemma EmailCommitsAtOnce(st: ParserState, key: string, i: nat, a: string)
    requires '/' !in key && (a == "EMAIL" || a == "SMS")
    ensures Step(st, Event(ActionLocator(key, i, "action"), Encode(a)))
         == ParserState(AddResultAction(st.rule, key, a), NoSlots)
  {
    ActionStep(st, key, i, "action", Encode(a));
    DecodeEncode(a);
  }

  /** Any other action waits in the slots: its action leaf, then its asset
      leaf, only fill their slots. */
  lemma PortActionWaits(st: ParserState, key: string, i: nat, a: string, asset: string)
    requires '/' !in key && a != "EMAIL" && a != "SMS" && st.slots == NoSlots
    ensures var e1 := Event(ActionLocator(key, i, "action"), Encode(a));
      && Step(st, e1) == st.(slots := Slots(Some(a), None, None))
      && Step(Step(st, e1), Event(ActionLocator(key, i, "asset"), Encode(asset)))
         == st.(slots := Slots(Some(a), Some(asset), None))
  {
    var st1 := st.(slots := Slots(Some(a), None, None));
    LeafFill(st, key, i, "action", a);
    assert Step(st, Event(ActionLocator(key, i, "action"), Encode(a))) == st1;
    LeafFill(st1, key, i, "asset", asset);
  }

  /** Once asset and mode are known too, the action is committed as
      `action:asset:mode` and the slots are emptied. */
  lemma PortActionCommitsWhenComplete(st: ParserState, key: string, i: nat, a: string, asset: string, mode: string)
    requires '/' !in key && a != "EMAIL" && a != "SMS" && st.slots == NoSlots
    ensures Fold(st, [Event(ActionLocator(key, i, "action"), Encode(a)),
                      Event(ActionLocator(key, i, "asset"), Encode(asset)),
                      Event(ActionLocator(key, i, "mode"), Encode(mode))])
         == ParserState(AddResultAction(st.rule, key, JoinAction(a, asset, mode)), NoSlots)
  {
    var e1 := Event(ActionLocator(key, i, "action"), Encode(a));
    var e2 := Event(ActionLocator(key, i, "asset"), Encode(asset));
    var e3 := Event(ActionLocator(key, i, "mode"), Encode(mode));
    var st1 := st.(slots := Slots(Some(a), None, None));
    var st2 := st.(slots := Slots(Some(a), Some(asset), None));
    LeafFill(st, key, i, "action", a);
    assert Step(st, e1) == st1;
    LeafFill(st1, key, i, "asset", asset);
    assert Step(st1, e2) == st2;
    ModeCommits(st2, key, i, a, asset, mode);
    Fold3(st, e1, e2, e3);
  }

  /** The slots are not reset between action groups: an asset left over from
      an incomplete group under one key completes the next group, under
      another key, that supplies only an action and a mode. */
  lemma SlotsPersistAcrossGroups(st: ParserState, k1: string, i: nat, x: string,
                                 k2: string, j: nat, a: string, m: string)
    requires '/' !in k1 && '/' !in k2 && a != "EMAIL" && a != "SMS" && st.slots == NoSlots
    ensures Fold(st, [Event(ActionLocator(k1, i, "asset"), Encode(x)),
                      Event(ActionLocator(k2, j, "action"), Encode(a)),
                      Event(ActionLocator(k2, j, "mode"), Encode(m))])
         == ParserState(AddResultAction(st.rule, k2, JoinAction(a, x, m)), NoSlots)
  {
    var e1 := Event(ActionLocator(k1, i, "asset"), Encode(x));
    var e2 := Event(ActionLocator(k2, j, "action"), Encode(a));
    var e3 := Event(ActionLocator(k2, j, "mode"), Encode(m));
    var st1 := st.(slots := Slots(None, Some(x), None));
    var st2 := st.(slots := Slots(Some(a), Some(x), None));
    LeafFill(st, k1, i, "asset", x);
    assert Step(st, e1) == st1;
    LeafFill(st1, k2, j, "action", a);
    assert Step(st1, e2) == st2;
    ModeCommits(st2, k2, j, a, x, m);
    Fold3(st, e1, e2, e3);
  }

  /** The mode leaf completes a port action whose action and asset are known. */
  lemma ModeCommits(st: ParserState, key: string, j: nat, a: string, x: string, m: string)
    requires '/' !in key && a != "EMAIL" && a != "SMS" && st.slots == Slots(Some(a), Some(x), None)
    ensures Step(st, Event(ActionLocator(key, j, "mode"), Encode(m)))
         == ParserState(AddResultAction(st.rule, key, JoinAction(a, x, m)), NoSlots)
  {
    LeafFill(st, key, j, "mode", m);
  }

  /** A leaf of an action object carrying the literal of x fills its slot with x. */
  lemma LeafFill(st: ParserState, key: string, i: nat, leaf: string, x: string)
    requires '/' !in key && (leaf == "action" || leaf == "asset" || leaf == "mode")
    ensures Step(st, Event(ActionLocator(key, i, leaf), Encode(x)))
         == Settle(st, Some(key), FillSlot(st.slots, leaf, Some(x)))
  {
    DecodeEncode(x);
    ActionStep(st, key, i, leaf, Encode(x));
  }

  /** A variable is stored only when its value is a non-empty string (a
      `null` or an empty string is skipped), and a name seen before keeps its
      first value. */
  lemma VariableFirstWriteWins(st: ParserState, n: string, value: string)
    ensures n in Keys(st.rule.variables) ==> Step(st, Event("variables/" + n, value)) == st
    ensures Decode(value).None? ==> Step(st, Event("variables/" + n, value)) == st
    ensures Decode(value) == Some("") ==> Step(st, Event("variables/" + n, value)) == st
    ensures n !in Keys(st.rule.variables) && Decode(value).Some? && Decode(value).value != ""
            ==> Step(st, Event("variables/" + n, value))
                == st.(rule := st.rule.(variables := st.rule.variables + [(n, Decode(value).value)]))
  {
    var loc := "variables/" + n;
    assert loc[0] == 'v';
    NotEnvelope(loc);
    ClassifyVariable(n);
  }

  /** The four scalar fields. */
  datatype Scalar = NameS | DescriptionS | LogicalAssetS | EvaluationS

  function ScalarOf(r: Rule, s: Scalar): Option<string>
  {
    match s
    case NameS => r.name
    case DescriptionS => r.description
    case LogicalAssetS => r.logicalAsset
    case EvaluationS => r.evaluation
  }

  function ScalarPlace(s: Scalar): Place
  {
    match s
    case NameS => NameField
    case DescriptionS => DescriptionField
    case LogicalAssetS => LogicalAssetField
    case EvaluationS => EvaluationField
  }

  function ScalarLocator(s: Scalar): string
  {
    match s
    case NameS => "name"
    case DescriptionS => "description"
    case LogicalAssetS => "logical_asset"
    case EvaluationS => "evaluation"
  }

  /** Only an event routed to a scalar's own branch changes that scalar. */
  lemma ScalarFrame(st: ParserState, e: Event, s: Scalar)
    requires Classify(StripEnvelope(e.locator)) != ScalarPlace(s)
    ensures ScalarOf(Step(st, e).rule, s) == ScalarOf(st.rule, s)
  {
    var loc := StripEnvelope(e.locator);
    var r := Step(st, e).rule;
    match Classify(loc)
    case NameField =>
    case DescriptionField =>
    case LogicalAssetField =>
    case EvaluationField =>
    case ListItem(f) =>
    case ResultLeaf =>
      assert r == st.rule.(results := r.results);
    case VariableItem(n) =>
    case Ignored =>
  }

  lemma {:induction false} ScalarFrameFold(st: ParserState, evs: seq<Event>, s: Scalar)
    requires forall i :: 0 <= i < |evs| ==> Classify(StripEnvelope(evs[i].locator)) != ScalarPlace(s)
    ensures ScalarOf(Fold(st, evs).rule, s) == ScalarOf(st.rule, s)
    decreases |evs|
  {
    if |evs| > 0 {
      ScalarFrame(st, evs[0], s);
      ScalarFrameFold(Step(st, evs[0]), evs[1..], s);
    }
  }

  lemma Differs(s: string, q: string, i: nat)
    requires i < |s| && i < |q| && s[i] != q[i]
    ensures !HasPrefix(s, q) && s != q
  {
    if |q| <= |s| {
      assert s[..|q|][i] == s[i];
    }
  }

  lemma ScalarLocatorFacts(s: Scalar)
    ensures StripEnvelope(ScalarLocator(s)) == ScalarLocator(s)
    ensures Classify(ScalarLocator(s)) == ScalarPlace(s)
  {
    var loc := ScalarLocator(s);
    match s
    case NameS =>
      assert !HasPrefix(loc, Envelope);
    case DescriptionS =>
      Differs(loc, Envelope, 0);
      Differs(loc, "name", 0);
    case LogicalAssetS =>
      Differs(loc, Envelope, 0);
      Differs(loc, "name", 0);
      Differs(loc, "description", 0);
    case EvaluationS =>
      Differs(loc, Envelope, 0);
      Differs(loc, "name", 0);
      Differs(loc, "description", 0);
      Differs(loc, "logical_asset", 0);
      Differs(loc, "metrics", 0);
      Differs(loc, "assets/", 0);
      Differs(loc, "groups/", 0);
      Differs(loc, "models/", 0);
      Differs(loc, "types/", 0);
      Differs(loc, "results/", 0);
  }

  /** Set one scalar field. */
  function SetScalar(r: Rule, s: Scalar, v: Option<string>): (r': Rule)
    ensures ScalarOf(r', s) == v
  {
    match s
    case NameS => r.(name := v)
    case DescriptionS => r.(description := v)
    case LogicalAssetS => r.(logicalAsset := v)
    case EvaluationS => r.(evaluation := v)
  }

  /** A scalar event overwrites its field with the decoded value and changes nothing else. */
  lemma ScalarStep(st: ParserState, s: Scalar, value: string)
    ensures Step(st, Event(ScalarLocator(s), value)) == st.(rule := SetScalar(st.rule, s, Decode(value)))
  {
    ScalarLocatorFacts(s);
  }

  /** name, description, logical_asset and evaluation are last-write-wins:
      the value of the last event routed to the field decides it. */
  lemma ScalarLastWriteWins(st: ParserState, pre: seq<Event>, s: Scalar, value: string, post: seq<Event>)
    requires forall i :: 0 <= i < |post| ==> Classify(StripEnvelope(post[i].locator)) != ScalarPlace(s)
    ensures ScalarOf(Fold(st, pre + [Event(ScalarLocator(s), value)] + post).rule, s) == Decode(value)
  {
    var e := Event(ScalarLocator(s), value);
    FoldAppend(st, pre + [e], post);
    FoldAppend(st, pre, [e]);
    var mid := Fold(st, pre);
    FoldCons(mid, [e]);
    assert [e][1..] == [];
    ScalarStep(mid, s, value);
    ScalarFrameFold(Step(mid, e), post, s);
  }
}
