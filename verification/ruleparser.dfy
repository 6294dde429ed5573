/** The rule parser of src/rule.c: rule_json_callback folded over the
    (locator, value) events the JSON tokenizer reports, starting from
    rule_new. The tokenizer itself (vsjson_parse) is not part of this model:
    a document arrives here as its event sequence, or as None when the
    tokenizer rejects it. Values are raw token text and are decoded with
    JsonString.Decode, as the callback decodes them with vsjson_decode_string. */
module RuleParser {
  import opened Strings
  import opened Assoc
  import opened JsonString
  import opened Rules

  datatype Event = Event(locator: string, value: string)

  /** The parser's three result-action slots (parser.action, act_asset, act_mode). */
  datatype Slots = Slots(action: Option<string>, asset: Option<string>, mode: Option<string>)

  const NoSlots := Slots(None, None, None)

  datatype ParserState = ParserState(rule: Rule, slots: Slots)

  const Start := ParserState(EmptyRule, NoSlots)

  /** The optional `{"flexible": ...}` envelope. */
  const Envelope := "flexible/"

  function StripEnvelope(loc: string): string
  {
    if HasPrefix(loc, Envelope) then loc[|Envelope|..] else loc
  }

  /** Which branch of the callback a (stripped) locator selects. */
  datatype Place =
    | NameField | DescriptionField | LogicalAssetField | EvaluationField
    | ListItem(field: ListField)
    | ResultLeaf
    | VariableItem(variable: string)
    | Ignored

  /** The callback's if-chain, in its order. The metrics test compares only
      the seven characters `metrics`, so any locator starting with them counts. */
  function Classify(loc: string): (p: Place)
    ensures p == NameField <==> loc == "name"
    ensures p == DescriptionField <==> loc == "description"
    ensures p == LogicalAssetField <==> loc == "logical_asset"
    ensures p == EvaluationField <==> loc == "evaluation"
    ensures p == ListItem(Metrics) <==> HasPrefix(loc, "metrics")
    ensures p.ListItem? && p.field != Metrics ==> HasPrefix(loc, ListPrefix(p.field))
    ensures p.ResultLeaf? ==> HasPrefix(loc, "results/")
    ensures p.VariableItem? ==> loc == "variables/" + p.variable
    ensures p == Ignored ==> !HasPrefix(loc, "results/") && !HasPrefix(loc, "variables/")
  {
    assert HasPrefix(loc, "metrics") ==> loc[0] == 'm';
    if loc == "name" then NameField
    else if loc == "description" then DescriptionField
    else if loc == "logical_asset" then LogicalAssetField
    else if HasPrefix(loc, "metrics") then ListItem(Metrics)
    else if HasPrefix(loc, "assets/") then ListItem(Assets)
    else if HasPrefix(loc, "groups/") then ListItem(Groups)
    else if HasPrefix(loc, "models/") then ListItem(Models)
    else if HasPrefix(loc, "types/") then ListItem(Types)
    else if HasPrefix(loc, "results/") then ResultLeaf
    else if loc == "evaluation" then EvaluationField
    else if HasPrefix(loc, "variables/") then VariableItem(loc[|"variables/"|..])
    else Ignored
  }

  /** Models and types drop empty strings; the other lists keep every decoded value. */
  predicate KeepsItem(f: ListField, x: string)
  {
    (f != Models && f != Types) || |x| > 0
  }

  /** Old result format: the last segment starts with a digit and the six
      characters before the slash in front of it are `action`
      (results/<key>/action/<digit>...). */
  predicate OldFormatLeaf(loc: string)
  {
    var last := LastSegment(loc);
    var p := |loc| - |last|;
    |last| > 0 && IsDigit(last[0]) && p >= 7 && loc[p - 7..p - 1] == "action"
  }

  /** Store a decoded value in the slot a result leaf names. */
  function FillSlot(s: Slots, leaf: string, v: Option<string>): Slots
  {
    if leaf == "action" then s.(action := v)
    else if leaf == "asset" then s.(asset := v)
    else s.(mode := v)
  }

  /** After a slot is filled: commit when the slots are complete. `EMAIL` and
      `SMS` need only the action; any other action needs asset and mode too and
      is stored as `action:asset:mode`. A commit attempt on a locator with no
      key (no slash after `results/<key>`) stores nothing; either way a commit
      attempt empties all three slots. */
  function Settle(st: ParserState, key: Option<string>, slots: Slots): (r: ParserState)
    ensures r.rule == st.rule.(results := r.rule.results)
    ensures r.rule != st.rule ==> r.slots == NoSlots
  {
    if slots.action.None? then st.(slots := slots)
    else
      var a := slots.action.value;
      var isEmail := a == "EMAIL" || a == "SMS";
      if !isEmail && (slots.asset.None? || slots.mode.None?) then st.(slots := slots)
      else if key.None? then st.(slots := NoSlots)
      else
        var stored := if isEmail then a else JoinAction(a, slots.asset.value, slots.mode.value);
        ParserState(AddResultAction(st.rule, key.value, stored), NoSlots)
  }

  /** The key of a result locator: the text between `results/` and the next slash. */
  function ResultKeyOf(loc: string): Option<string>
    requires HasPrefix(loc, "results/")
  {
    var rest := loc[|"results/"|..];
    var slash := IndexOf(rest, '/');
    if slash.None? then None else Some(rest[..slash.value])
  }

  /** One result-section event: a leaf named `action` (or an old-format
      numbered action), `asset` or `mode` fills its slot, then the slots settle;
      any other leaf is ignored. */
  function ResultStep(st: ParserState, loc: string, v: Option<string>): (r: ParserState)
    requires HasPrefix(loc, "results/")
    ensures r.rule == st.rule.(results := r.rule.results)
    ensures r.rule != st.rule ==> r.slots == NoSlots
  {
    var last := LastSegment(loc);
    if OldFormatLeaf(loc) then Settle(st, ResultKeyOf(loc), FillSlot(st.slots, "action", v))
    else if last == "action" || last == "asset" || last == "mode" then
      Settle(st, ResultKeyOf(loc), FillSlot(st.slots, last, v))
    else st
  }

  /** rule_json_callback for one event. Scalars are overwritten by every
      event; lists append; variables keep the first non-empty value per name. */
  function Step(st: ParserState, e: Event): (r: ParserState)
    ensures Classify(StripEnvelope(e.locator)) == Ignored ==> r == st
    ensures !Classify(StripEnvelope(e.locator)).ResultLeaf? ==> r.slots == st.slots
    ensures Classify(StripEnvelope(e.locator)).ResultLeaf? ==> r.rule == st.rule.(results := r.rule.results)
  {
    var loc := StripEnvelope(e.locator);
    var v := Decode(e.value);
    match Classify(loc)
    case NameField => st.(rule := st.rule.(name := v))
    case DescriptionField => st.(rule := st.rule.(description := v))
    case LogicalAssetField => st.(rule := st.rule.(logicalAsset := v))
    case EvaluationField => st.(rule := st.rule.(evaluation := v))
    case ListItem(f) =>
      if v.Some? && KeepsItem(f, v.value) then st.(rule := AppendTo(st.rule, f, v.value)) else st
    case ResultLeaf => ResultStep(st, loc, v)
    case VariableItem(n) =>
      if v.Some? && |v.value| > 0 then st.(rule := st.rule.(variables := InsertNew(st.rule.variables, n, v.value)))
      else st
    case Ignored => st
  }

  /** The callback over a run of events, in order. */
  function Fold(st: ParserState, evs: seq<Event>): (r: ParserState)
    ensures Parsed(st.rule) ==> Parsed(r.rule)
    decreases |evs|
  {
    if |evs| == 0 then st
    else
      StepKeepsParsed(st, evs[0]);
      Fold(Step(st, evs[0]), evs[1..])
  }

  /** rule_parse on a document the tokenizer accepted: whatever the events,
      the rule has the shape the callback keeps. */
  function Parse(evs: seq<Event>): (r: Rule)
    ensures Parsed(r)
  {
    Fold(Start, evs).rule
  }

  // ---------------------------------------------------------------------
  // The shape the callback keeps

  /** What every rule the callback builds looks like: models and types hold
      no empty name; result keys are distinct and free of `/`, each with at
      least one action; variable names are distinct and their values are
      not empty. */
  predicate Parsed(r: Rule)
  {
    && (forall i :: 0 <= i < |r.models| ==> r.models[i] != "")
    && (forall i :: 0 <= i < |r.types| ==> r.types[i] != "")
    && DistinctKeys(r.results)
    && (forall i :: 0 <= i < |r.results| ==> '/' !in r.results[i].0 && |r.results[i].1| > 0)
    && DistinctKeys(r.variables)
    && (forall i :: 0 <= i < |r.variables| ==> |r.variables[i].1| > 0)
  }

  /** Adding a result action under a key without `/` keeps the shape. */
  lemma AddKeepsParsed(r: Rule, key: string, a: string)
    requires Parsed(r) && '/' !in key
    ensures Parsed(AddResultAction(r, key, a))
  {
    var acts := Lookup(r.results, key).GetOr([]) + [a];
    PutEntries(r.results, key, acts);
    var t := AddResultAction(r, key, a).results;
    assert t == Put(r.results, key, acts);
    forall i | 0 <= i < |t|
      ensures '/' !in t[i].0 && |t[i].1| > 0
    {
      assert t[i] in t;
      if t[i] != (key, acts) {
        assert t[i] in r.results;
      }
    }
  }

  /** Settling the slots under the key of a result locator keeps the shape. */
  lemma SettleKeepsParsed(st: ParserState, key: Option<string>, slots: Slots)
    requires Parsed(st.rule) && (key.Some? ==> '/' !in key.value)
    ensures Parsed(Settle(st, key, slots).rule)
  {
    if slots.action.Some? && key.Some? {
      var a := slots.action.value;
      var stored := if a == "EMAIL" || a == "SMS" then a else JoinAction(a, slots.asset.GetOr(""), slots.mode.GetOr(""));
      AddKeepsParsed(st.rule, key.value, stored);
    }
  }

  lemma ResultStepKeepsParsed(st: ParserState, loc: string, v: Option<string>)
    requires HasPrefix(loc, "results/") && Parsed(st.rule)
    ensures Parsed(ResultStep(st, loc, v).rule)
  {
    var key := ResultKeyOf(loc);
    if key.Some? {
      var rest := loc[|"results/"|..];
      assert key.value == rest[..IndexOf(rest, '/').value];
    }
    var last := LastSegment(loc);
    var leaf := if OldFormatLeaf(loc) then "action" else last;
    SettleKeepsParsed(st, key, FillSlot(st.slots, leaf, v));
  }

  /** Appending a list item the callback keeps keeps the shape. */
  lemma AppendKeepsParsed(r: Rule, f: ListField, x: string)
    requires Parsed(r) && KeepsItem(f, x)
    ensures Parsed(AppendTo(r, f, x))
  {
    var r' := AppendTo(r, f, x);
    if f == Models {
      assert r'.models == r.models + [x];
    } else {
      assert Clear(r', f).models == Clear(r, f).models;
    }
    if f == Types {
      assert r'.types == r.types + [x];
    } else {
      assert Clear(r', f).types == Clear(r, f).types;
    }
  }

  /** Inserting a variable with a non-empty value keeps the shape. */
  lemma InsertKeepsParsed(r: Rule, n: string, x: string)
    requires Parsed(r) && |x| > 0
    ensures Parsed(r.(variables := InsertNew(r.variables, n, x)))
  {
    var t := InsertNew(r.variables, n, x);
    if n !in Keys(r.variables) {
      assert t == r.variables + [(n, x)];
      forall i | 0 <= i < |t|
        ensures |t[i].1| > 0
      {
        if i < |r.variables| {
          assert t[i] == r.variables[i];
        }
      }
    }
  }

  /** Every event keeps the shape. */
  lemma StepKeepsParsed(st: ParserState, e: Event)
    ensures Parsed(st.rule) ==> Parsed(Step(st, e).rule)
  {
    if Parsed(st.rule) {
      var loc := StripEnvelope(e.locator);
      var v := Decode(e.value);
      match Classify(loc)
      case ListItem(f) =>
        if v.Some? && KeepsItem(f, v.value) {
          AppendKeepsParsed(st.rule, f, v.value);
          assert Step(st, e) == st.(rule := AppendTo(st.rule, f, v.value));
        } else {
          assert Step(st, e) == st;
        }
      case ResultLeaf =>
        ResultStepKeepsParsed(st, loc, v);
        assert Step(st, e) == ResultStep(st, loc, v);
      case VariableItem(n) =>
        if v.Some? && |v.value| > 0 {
          InsertKeepsParsed(st.rule, n, v.value);
          assert Step(st, e) == st.(rule := st.rule.(variables := InsertNew(st.rule.variables, n, v.value)));
        } else {
          assert Step(st, e) == st;
        }
      case _ =>
    }
  }


  /** rule_parse: fails exactly when the tokenizer rejects the text; the
      callback itself never reports an error. */
  function ParseDocument(tokens: Option<seq<Event>>): (r: Option<Rule>)
    ensures r.Some? <==> tokens.Some?
    ensures tokens.Some? ==> r.value == Fold(Start, tokens.value).rule
    ensures r.Some? ==> Parsed(r.value)
  {
    match tokens
    case None => None
    case Some(evs) => Some(Parse(evs))
  }

  /** The locator of one leaf of a new-format action object. */
  function ActionLocator(key: string, index: nat, leaf: string): string
  {
    "results/" + key + "/action/" + NatToString(index) + "/" + leaf
  }

  // ---------------------------------------------------------------------
  // Locator facts

  lemma {:induction false} FoldAppend(st: ParserState, a: seq<Event>, b: seq<Event>)
    ensures Fold(st, a + b) == Fold(Fold(st, a), b)
    decreases |a|
  {
    if |a| > 0 {
      assert (a + b)[0] == a[0];
      assert (a + b)[1..] == a[1..] + b;
      FoldAppend(Step(st, a[0]), a[1..], b);
    } else {
      assert a + b == b;
    }
  }

  /** Two strings that differ at position i: neither p + t equals q nor starts with it. */
  lemma PrefixClash(p: string, t: string, q: string, i: nat)
    requires i < |p| && i < |q| && p[i] != q[i]
    ensures !HasPrefix(p + t, q) && p + t != q
  {
    assert (p + t)[i] == p[i];
  }

  lemma PrefixOf(p: string, t: string)
    ensures HasPrefix(p + t, p) && (p + t)[|p|..] == t
  {
    assert (p + t)[..|p|] == p;
  }

  /** A locator whose first character is neither `f` nor `n` is left alone by
      the envelope stripping and is not the name locator. */
  lemma NotEnvelope(loc: string)
    requires |loc| > 0 && loc[0] != 'f' && loc[0] != 'n'
    ensures StripEnvelope(loc) == loc && loc != "name"
  {
    assert loc[0] != Envelope[0];
  }

  lemma {:induction false} LastSegmentAfterSlash(x: string, d: string)
    requires '/' !in d
    ensures LastSegment(x + "/" + d) == d
    decreases |d|
  {
    var s := x + "/" + d;
    if |d| == 0 {
      assert s == x + "/";
      assert s[|s| - 1] == '/';
    } else {
      var d' := d[..|d| - 1];
      var c := d[|d| - 1];
      assert c in d;
      assert s == (x + "/" + d') + [c];
      assert s[..|s| - 1] == x + "/" + d';
      assert '/' !in d' by {
        forall i | 0 <= i < |d'| ensures d'[i] != '/' {
          assert d'[i] == d[i];
        }
      }
      LastSegmentAfterSlash(x, d');
      assert LastSegment(s) == LastSegment(s[..|s| - 1]) + [s[|s| - 1]];
      assert d' + [c] == d;
    }
  }

  lemma ClassifyResult(t: string)
    ensures Classify("results/" + t) == ResultLeaf
  {
    var p := "results/";
    PrefixClash(p, t, "name", 0);
    PrefixClash(p, t, "description", 0);
    PrefixClash(p, t, "logical_asset", 0);
    PrefixClash(p, t, "metrics", 0);
    PrefixClash(p, t, "assets/", 0);
    PrefixClash(p, t, "groups/", 0);
    PrefixClash(p, t, "models/", 0);
    PrefixClash(p, t, "types/", 0);
    PrefixOf(p, t);
  }

  lemma ClassifyVariable(t: string)
    ensures Classify("variables/" + t) == VariableItem(t)
  {
    var p := "variables/";
    PrefixClash(p, t, "name", 0);
    PrefixClash(p, t, "description", 0);
    PrefixClash(p, t, "logical_asset", 0);
    PrefixClash(p, t, "metrics", 0);
    PrefixClash(p, t, "assets/", 0);
    PrefixClash(p, t, "groups/", 0);
    PrefixClash(p, t, "models/", 0);
    PrefixClash(p, t, "types/", 0);
    PrefixClash(p, t, "results/", 0);
    PrefixClash(p, t, "evaluation", 0);
    PrefixOf(p, t);
  }

  /** The locator prefix of each selector list in a serialised rule. */
  function ListPrefix(f: ListField): string
  {
    match f
    case Metrics => "metrics/"
    case Assets => "assets/"
    case Groups => "groups/"
    case Models => "models/"
    case Types => "types/"
  }

  lemma ClassifyList(f: ListField, t: string)
    ensures Classify(ListPrefix(f) + t) == ListItem(f)
  {
    var p := ListPrefix(f);
    PrefixClash(p, t, "name", 0);
    PrefixClash(p, t, "description", 0);
    PrefixClash(p, t, "logical_asset", 0);
    match f
    case Metrics =>
      assert HasPrefix(p + t, "metrics") by { assert (p + t)[..7] == p[..7]; }
    case Assets =>
      PrefixClash(p, t, "metrics", 0);
      PrefixOf(p, t);
    case Groups =>
      PrefixClash(p, t, "metrics", 0);
      PrefixClash(p, t, "assets/", 0);
      PrefixOf(p, t);
    case Models =>
      PrefixClash(p, t, "metrics", 1);
      PrefixClash(p, t, "assets/", 0);
      PrefixClash(p, t, "groups/", 0);
      PrefixOf(p, t);
    case Types =>
      PrefixClash(p, t, "metrics", 0);
      PrefixClash(p, t, "assets/", 0);
      PrefixClash(p, t, "groups/", 0);
      PrefixClash(p, t, "models/", 0);
      PrefixOf(p, t);
  }
}
