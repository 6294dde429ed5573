/** Reading back what rule_json writes. The JSON tokenizer is not part of this
    model, so the text of rule_json is related to the parser through the walk
    the tokenizer reports for it: one (locator, raw value) event per string or
    null leaf, in document order, with object keys and decimal array indexes
    joined by `/`. DocEvents is that walk for the document ToJson writes,
    section by section; object keys are assumed to be reported verbatim,
    which WellFormed makes safe by excluding keys that need escaping. */
module RoundTrip {
  import opened Strings
  import opened Assoc
  import opened JsonString
  import opened Rules
  import opened RuleParser
  import opened ParserProperties
  import opened RuleJson

  /** The leaves of one action object as s_actions_to_json_array writes it. */
  function ActionEvents(key: string, i: nat, a: string): seq<Event>
  {
    match SplitAction(a)
    case Plain(s) => [Event(ActionLocator(key, i, "action"), Encode(s))]
    case Port(x, y, m) =>
      [Event(ActionLocator(key, i, "action"), Encode(x)), Event(ActionLocator(key, i, "asset"), Encode(y))]
      + (if m.Some? then [Event(ActionLocator(key, i, "mode"), Encode(m.value))] else [])
  }

  /** The leaves of the action array under one result key, from index `from`. */
  function ActionsEvents(key: string, acts: seq<string>, from: nat): seq<Event>
    decreases |acts|
  {
    if |acts| == 0 then [] else ActionEvents(key, from, acts[0]) + ActionsEvents(key, acts[1..], from + 1)
  }

  function ResultsEvents(t: ActionTable): seq<Event>
    decreases |t|
  {
    if |t| == 0 then [] else ActionsEvents(t[0].0, t[0].1, 0) + ResultsEvents(t[1..])
  }

  function VariablesEvents(t: Variables): seq<Event>
    decreases |t|
  {
    if |t| == 0 then [] else [Event("variables/" + t[0].0, Encode(t[0].1))] + VariablesEvents(t[1..])
  }

  function HeadEvents(r: Rule): seq<Event>
  {
    [Event("name", EncodeNullable(r.name)),
     Event("description", Encode(r.description.GetOr(""))),
     Event("logical_asset", Encode(r.logicalAsset.GetOr("")))]
  }

  function ListsEvents(r: Rule): seq<Event>
  {
    ListEvents(Metrics, r.metrics, 0) + ListEvents(Assets, r.assets, 0)
    + ListEvents(Models, r.models, 0) + ListEvents(Groups, r.groups, 0)
  }

  /** The events of ToJson(r), in the order ToJson writes its sections. */
  function DocEvents(r: Rule): seq<Event>
  {
    HeadEvents(r) + ListsEvents(r) + ResultsEvents(r.results) + VariablesEvents(r.variables)
    + [Event("evaluation", EncodeNullable(r.evaluation))]
  }

  /** A key the tokenizer reports as written: no quote, no backslash. */
  predicate PlainKey(k: string)
  {
    '"' !in k && '\\' !in k
  }

  /** A results table that survives the cycle: distinct plain keys without a
      slash, each with at least one action, every action EMAIL, SMS or a port
      action with a mode. */
  predicate WellFormedResults(t: ActionTable)
  {
    && DistinctKeys(t)
    && (forall i :: 0 <= i < |t| ==> '/' !in t[i].0 && PlainKey(t[i].0) && |t[i].1| > 0)
    && (forall i, a :: 0 <= i < |t| && a in t[i].1 ==> ValidAction(a))
  }

  /** Variables that survive the cycle: distinct plain names with non-empty values. */
  predicate WellFormedVariables(t: Variables)
  {
    DistinctKeys(t) && forall i :: 0 <= i < |t| ==> PlainKey(t[i].0) && |t[i].1| > 0
  }

  predicate WellFormed(r: Rule)
  {
    WellFormedResults(r.results) && WellFormedVariables(r.variables)
  }

  /** What a cycle through the text makes of a rule: a missing description or
      logical asset becomes empty, empty model names are dropped, and the
      types are lost. */
  function Normalize(r: Rule): (n: Rule)
    ensures n.name == r.name && n.evaluation == r.evaluation
    ensures n.metrics == r.metrics && n.assets == r.assets && n.groups == r.groups
    ensures n.results == r.results && n.variables == r.variables
    ensures n.types == [] && n.description.Some? && n.logicalAsset.Some?
  {
    r.(description := Some(r.description.GetOr("")),
       logicalAsset := Some(r.logicalAsset.GetOr("")),
       models := Kept(Models, r.models),
       types := [])
  }

  // ---------------------------------------------------------------------
  // Section by section

  lemma FoldSingle(st: ParserState, e: Event)
    ensures Fold(st, [e]) == Step(st, e)
  {
    FoldCons(st, [e]);
    assert [e][1..] == [];
  }

  /** The first three events set name, description and logical asset. */
  lemma HeadPart(r: Rule)
    ensures Fold(Start, HeadEvents(r))
         == ParserState(EmptyRule.(name := r.name,
                                   description := Some(r.description.GetOr("")),
                                   logicalAsset := Some(r.logicalAsset.GetOr(""))), NoSlots)
  {
    var e0 := Event(ScalarLocator(NameS), EncodeNullable(r.name));
    var e1 := Event(ScalarLocator(DescriptionS), Encode(r.description.GetOr("")));
    var e2 := Event(ScalarLocator(LogicalAssetS), Encode(r.logicalAsset.GetOr("")));
    assert HeadEvents(r) == [e0, e1, e2];
    Fold3(Start, e0, e1, e2);
    DecodeEncodeNullable(r.name);
    DecodeEncode(r.description.GetOr(""));
    DecodeEncode(r.logicalAsset.GetOr(""));
    ScalarStep(Start, NameS, e0.value);
    var st1 := Step(Start, e0);
    ScalarStep(st1, DescriptionS, e1.value);
    var st2 := Step(st1, e1);
    ScalarStep(st2, LogicalAssetS, e2.value);
  }

  /** Into an empty list, a list other than models and types receives the
      array unchanged. */
  lemma ListPart(st: ParserState, f: ListField, xs: seq<string>, r': Rule)
    requires FieldOf(st.rule, f) == [] && f != Models && f != Types
    requires Clear(r', f) == Clear(st.rule, f) && FieldOf(r', f) == xs
    ensures Fold(st, ListEvents(f, xs, 0)) == st.(rule := r')
  {
    ListAccumulates(st, f, xs, 0);
    KeptFilters(f, xs);
    assert [] + Kept(f, xs) == Kept(f, xs);
    ClearDetermines(AppendKept(st.rule, f, xs), r', f);
  }

  /** The models array fills the models, less the empty names. */
  lemma ModelsPart(st: ParserState, models: seq<string>)
    requires st.rule.models == []
    ensures Fold(st, ListEvents(Models, models, 0)) == st.(rule := st.rule.(models := Kept(Models, models)))
  {
    var st' := st.(rule := st.rule.(models := Kept(Models, models)));
    ListAccumulates(st, Models, models, 0);
    assert [] + Kept(Models, models) == Kept(Models, models);
    ClearDetermines(AppendKept(st.rule, Models, models), st'.rule, Models);
  }

  /** The four arrays fill metrics, assets, models and groups. */
  lemma ListsPart(st: ParserState, r: Rule)
    requires st.rule.metrics == [] && st.rule.assets == [] && st.rule.models == [] && st.rule.groups == []
    ensures Fold(st, ListsEvents(r))
         == st.(rule := st.rule.(metrics := r.metrics, assets := r.assets,
                                 models := Kept(Models, r.models), groups := r.groups))
  {
    var m := ListEvents(Metrics, r.metrics, 0);
    var a := ListEvents(Assets, r.assets, 0);
    var o := ListEvents(Models, r.models, 0);
    var g := ListEvents(Groups, r.groups, 0);
    var st1 := st.(rule := st.rule.(metrics := r.metrics));
    var st2 := st1.(rule := st1.rule.(assets := r.assets));
    var st3 := st2.(rule := st2.rule.(models := Kept(Models, r.models)));
    var st4 := st3.(rule := st3.rule.(groups := r.groups));
    assert Fold(st, m) == st1 by { ListPart(st, Metrics, r.metrics, st1.rule); }
    assert Fold(st1, a) == st2 by { ListPart(st1, Assets, r.assets, st2.rule); }
    assert Fold(st2, o) == st3 by { ModelsPart(st2, r.models); }
    assert Fold(st3, g) == st4 by { ListPart(st3, Groups, r.groups, st4.rule); }
    FoldAppend(st, m, a);
    FoldAppend(st, m + a, o);
    FoldAppend(st, m + a + o, g);
  }

  lemma AppendHead<T>(V: seq<T>, t: seq<T>)
    requires |t| > 0
    ensures V + [t[0]] + t[1..] == V + t
  {
  }

  /** A port action's leaves: action, asset and mode. */
  lemma PortActionPart(st: ParserState, key: string, i: nat, a: string)
    requires st.slots == NoSlots && '/' !in key && ValidAction(a) && SplitAction(a).Port?
    ensures Fold(st, ActionEvents(key, i, a)) == ParserState(AddResultAction(st.rule, key, a), NoSlots)
  {
    var v := SplitAction(a);
    JoinSplit(a);
    assert ActionEvents(key, i, a)
        == [Event(ActionLocator(key, i, "action"), Encode(v.action)),
            Event(ActionLocator(key, i, "asset"), Encode(v.asset)),
            Event(ActionLocator(key, i, "mode"), Encode(v.mode.value))];
    PortActionCommitsWhenComplete(st, key, i, v.action, v.asset, v.mode.value);
  }

  /** One valid action's leaves commit exactly that action under its key. */
  lemma ActionPart(st: ParserState, key: string, i: nat, a: string)
    requires st.slots == NoSlots && '/' !in key && ValidAction(a)
    ensures Fold(st, ActionEvents(key, i, a)) == ParserState(AddResultAction(st.rule, key, a), NoSlots)
  {
    if SplitAction(a).Plain? {
      assert ActionEvents(key, i, a) == [Event(ActionLocator(key, i, "action"), Encode(a))];
      EmailCommitsAtOnce(st, key, i, a);
      FoldSingle(st, Event(ActionLocator(key, i, "action"), Encode(a)));
    } else {
      PortActionPart(st, key, i, a);
    }
  }

  /** After the first action of an array, the rest lands on the list that
      already ends with it. */
  lemma ActionsStep(st: ParserState, key: string, acts: seq<string>)
    requires |acts| > 1
    ensures var R := st.rule.results;
      var L := Lookup(R, key).GetOr([]);
      var R1 := Put(R, key, L + [acts[0]]);
      Put(R1, key, Lookup(R1, key).GetOr([]) + acts[1..]) == Put(R, key, L + acts)
  {
    var R := st.rule.results;
    var L := Lookup(R, key).GetOr([]);
    AppendFirstRest(L, acts);
    PutPut(R, key, L + [acts[0]], L + acts);
  }

  /** The list a key ends up with after an action array. */
  function AfterActions(st: ParserState, key: string, acts: seq<string>): ParserState
  {
    ParserState(st.rule.(results := Put(st.rule.results, key, Lookup(st.rule.results, key).GetOr([]) + acts)), NoSlots)
  }

  /** The first action of an array lands on the key's list before the rest
      of the array is read. */
  lemma ActionsFirst(st: ParserState, key: string, acts: seq<string>, from: nat)
    requires st.slots == NoSlots && '/' !in key && |acts| > 0 && ValidAction(acts[0])
    ensures Fold(st, ActionsEvents(key, acts, from))
         == Fold(AfterActions(st, key, [acts[0]]), ActionsEvents(key, acts[1..], from + 1))
  {
    var rest := ActionsEvents(key, acts[1..], from + 1);
    assert ActionsEvents(key, acts, from) == ActionEvents(key, from, acts[0]) + rest;
    ActionPart(st, key, from, acts[0]);
    FoldAppend(st, ActionEvents(key, from, acts[0]), rest);
  }

  /** An array of one action adds that action. */
  lemma ActionsOne(st: ParserState, key: string, acts: seq<string>, from: nat)
    requires st.slots == NoSlots && '/' !in key && |acts| == 1 && ValidAction(acts[0])
    ensures Fold(st, ActionsEvents(key, acts, from)) == AfterActions(st, key, acts)
  {
    ActionsFirst(st, key, acts, from);
    assert acts[1..] == [];
    assert Fold(AfterActions(st, key, [acts[0]]), []) == AfterActions(st, key, [acts[0]]);
    assert acts == [acts[0]];
  }

  /** Appending the first element and then the rest appends the whole. */
  lemma AppendFirstRest(l: seq<string>, xs: seq<string>)
    requires |xs| > 0
    ensures l + [xs[0]] + xs[1..] == l + xs
  {
    assert [xs[0]] + xs[1..] == xs;
  }

  /** An array of several actions: the first one, then the rest on the
      list that already ends with it. */
  lemma ActionsMore(st: ParserState, key: string, acts: seq<string>, from: nat)
    requires st.slots == NoSlots && '/' !in key && |acts| > 1 && ValidAction(acts[0])
    requires var st1 := AfterActions(st, key, [acts[0]]);
      Fold(st1, ActionsEvents(key, acts[1..], from + 1)) == AfterActions(st1, key, acts[1..])
    ensures Fold(st, ActionsEvents(key, acts, from)) == AfterActions(st, key, acts)
  {
    ActionsFirst(st, key, acts, from);
    ActionsStep(st, key, acts);
  }

  /** An action array appends its actions, in order, to the key's list. */
  lemma {:induction false} ActionsPart(st: ParserState, key: string, acts: seq<string>, from: nat)
    requires st.slots == NoSlots && '/' !in key && |acts| > 0
    requires forall a :: a in acts ==> ValidAction(a)
    ensures Fold(st, ActionsEvents(key, acts, from))
         == ParserState(st.rule.(results := Put(st.rule.results, key,
                                                Lookup(st.rule.results, key).GetOr([]) + acts)), NoSlots)
    decreases |acts|
  {
    assert ValidAction(acts[0]);
    if |acts| == 1 {
      ActionsOne(st, key, acts, from);
    } else {
      assert forall a :: a in acts[1..] ==> a in acts;
      ActionsPart(AfterActions(st, key, [acts[0]]), key, acts[1..], from + 1);
      ActionsMore(st, key, acts, from);
    }
  }

  /** The rest of a well-formed results table is well formed and avoids the
      keys of a table its first entry was appended to. */
  lemma ResultsTail(t: ActionTable, R: ActionTable)
    requires |t| > 0 && WellFormedResults(t)
    requires forall i :: 0 <= i < |t| ==> t[i].0 !in Keys(R)
    ensures WellFormedResults(t[1..])
    ensures forall i :: 0 <= i < |t[1..]| ==> t[1..][i].0 !in Keys(R + [t[0]])
  {
    KeysSnoc(R, t[0]);
    assert forall i :: 0 <= i < |t[1..]| ==> t[1..][i] == t[i + 1];
  }

  /** The first entry of a results table lands after the existing entries. */
  lemma ResultsHead(st: ParserState, t: ActionTable)
    requires st.slots == NoSlots && |t| > 0 && WellFormedResults(t)
    requires t[0].0 !in Keys(st.rule.results)
    ensures Fold(st, ActionsEvents(t[0].0, t[0].1, 0))
         == ParserState(st.rule.(results := st.rule.results + [t[0]]), NoSlots)
  {
    var k := t[0].0;
    var acts := t[0].1;
    assert forall a :: a in acts ==> ValidAction(a);
    ActionsPart(st, k, acts, 0);
    assert [] + acts == acts;
    PutNew(st.rule.results, k, acts);
  }

  /** The results object appends its entries to a table holding none of their keys. */
  lemma {:induction false} ResultsPart(st: ParserState, t: ActionTable)
    requires st.slots == NoSlots && WellFormedResults(t)
    requires forall i :: 0 <= i < |t| ==> t[i].0 !in Keys(st.rule.results)
    ensures Fold(st, ResultsEvents(t)) == ParserState(st.rule.(results := st.rule.results + t), NoSlots)
    decreases |t|
  {
    if |t| > 0 {
      var R := st.rule.results;
      var st1 := ParserState(st.rule.(results := R + [t[0]]), NoSlots);
      ResultsHead(st, t);
      FoldAppend(st, ActionsEvents(t[0].0, t[0].1, 0), ResultsEvents(t[1..]));
      ResultsTail(t, R);
      ResultsPart(st1, t[1..]);
      AppendHead(R, t);
    }
  }

  lemma VariablesTail(t: Variables, V: Variables)
    requires |t| > 0 && WellFormedVariables(t)
    requires forall i :: 0 <= i < |t| ==> t[i].0 !in Keys(V)
    ensures WellFormedVariables(t[1..])
    ensures forall i :: 0 <= i < |t[1..]| ==> t[1..][i].0 !in Keys(V + [t[0]])
  {
    KeysSnoc(V, t[0]);
    assert forall i :: 0 <= i < |t[1..]| ==> t[1..][i] == t[i + 1];
  }

  lemma VariablesHead(st: ParserState, t: Variables)
    requires |t| > 0 && WellFormedVariables(t)
    requires t[0].0 !in Keys(st.rule.variables)
    ensures Fold(st, VariablesEvents(t)) == Fold(st.(rule := st.rule.(variables := st.rule.variables + [t[0]])), VariablesEvents(t[1..]))
  {
    DecodeEncode(t[0].1);
    VariableFirstWriteWins(st, t[0].0, Encode(t[0].1));
    FoldCons(st, VariablesEvents(t));
  }

  /** The variables object appends its entries to a table holding none of their names. */
  lemma {:induction false} VariablesPart(st: ParserState, t: Variables)
    requires WellFormedVariables(t)
    requires forall i :: 0 <= i < |t| ==> t[i].0 !in Keys(st.rule.variables)
    ensures Fold(st, VariablesEvents(t)) == st.(rule := st.rule.(variables := st.rule.variables + t))
    decreases |t|
  {
    if |t| > 0 {
      var V := st.rule.variables;
      var st1 := st.(rule := st.rule.(variables := V + [t[0]]));
      VariablesHead(st, t);
      VariablesTail(t, V);
      VariablesPart(st1, t[1..]);
      AppendHead(V, t);
    }
  }

  // ---------------------------------------------------------------------
  // The cycle

  /** The state after the scalar fields and the four arrays. */
  function FrontState(r: Rule): ParserState
  {
    ParserState(EmptyRule.(name := r.name,
                           description := Some(r.description.GetOr("")),
                           logicalAsset := Some(r.logicalAsset.GetOr("")),
                           metrics := r.metrics, assets := r.assets,
                           models := Kept(Models, r.models), groups := r.groups), NoSlots)
  }

  lemma FrontPart(r: Rule)
    ensures Fold(Start, HeadEvents(r) + ListsEvents(r)) == FrontState(r)
  {
    FoldAppend(Start, HeadEvents(r), ListsEvents(r));
    HeadPart(r);
    ListsPart(Fold(Start, HeadEvents(r)), r);
  }

  function MidState(r: Rule): ParserState
  {
    FrontState(r).(rule := FrontState(r).rule.(results := r.results))
  }

  function LateState(r: Rule): ParserState
  {
    MidState(r).(rule := MidState(r).rule.(variables := r.variables))
  }

  lemma ResultsStage(r: Rule)
    requires WellFormedResults(r.results)
    ensures Fold(FrontState(r), ResultsEvents(r.results)) == MidState(r)
  {
    ResultsPart(FrontState(r), r.results);
    assert [] + r.results == r.results;
  }

  lemma VariablesStage(r: Rule)
    requires WellFormedVariables(r.variables)
    ensures Fold(MidState(r), VariablesEvents(r.variables)) == LateState(r)
  {
    VariablesPart(MidState(r), r.variables);
    assert [] + r.variables == r.variables;
  }

  lemma EvaluationStage(r: Rule)
    ensures Fold(LateState(r), [Event("evaluation", EncodeNullable(r.evaluation))])
         == ParserState(Normalize(r), NoSlots)
  {
    FoldSingle(LateState(r), Event("evaluation", EncodeNullable(r.evaluation)));
    ScalarStep(LateState(r), EvaluationS, EncodeNullable(r.evaluation));
    DecodeEncodeNullable(r.evaluation);
  }

  /** Parsing what rule_json writes gives the rule back, normalised. */
  lemma ParseToJson(r: Rule)
    requires WellFormed(r)
    ensures Parse(DocEvents(r)) == Normalize(r)
  {
    var front := HeadEvents(r) + ListsEvents(r);
    var c := ResultsEvents(r.results);
    var d := VariablesEvents(r.variables);
    var e := [Event("evaluation", EncodeNullable(r.evaluation))];
    FrontPart(r);
    ResultsStage(r);
    VariablesStage(r);
    EvaluationStage(r);
    FoldAppend(Start, front, c);
    FoldAppend(Start, front + c, d);
    FoldAppend(Start, front + c + d, e);
  }

  /** Normalising keeps a rule well formed, and twice is once. */
  lemma NormalizeIdempotent(r: Rule)
    ensures Normalize(Normalize(r)) == Normalize(r)
    ensures WellFormed(r) ==> WellFormed(Normalize(r))
  {
    KeptKept(r.models);
  }

  lemma {:induction false} KeptKept(xs: seq<string>)
    ensures Kept(Models, Kept(Models, xs)) == Kept(Models, xs)
    decreases |xs|
  {
    if |xs| > 0 {
      KeptKept(xs[1..]);
      KeptHead(Models, xs);
      var k1 := Kept(Models, xs[1..]);
      if KeepsItem(Models, xs[0]) {
        var k := [xs[0]] + k1;
        assert k[0] == xs[0] && k[1..] == k1;
        KeptHead(Models, k);
      } else {
        assert Kept(Models, xs) == [] + k1 == k1;
      }
    }
  }

  /** The parser stores action `e:x` (with `e` being `EMAIL` or `SMS`), asset
      `y` and mode `m` as the port action `e:x:y:m`: the action is not `EMAIL`
      or `SMS` itself, so it waits for its asset and mode. */
  lemma ColonActionStored(st: ParserState, key: string, i: nat, e: string, x: string, y: string, m: string)
    requires '/' !in key && st.slots == NoSlots
    requires e == "EMAIL" || e == "SMS"
    ensures Fold(st, [Event(ActionLocator(key, i, "action"), Encode(e + ":" + x)),
                      Event(ActionLocator(key, i, "asset"), Encode(y)),
                      Event(ActionLocator(key, i, "mode"), Encode(m))])
         == ParserState(AddResultAction(st.rule, key, e + ":" + x + ":" + y + ":" + m), NoSlots)
  {
    var a := e + ":" + x;
    assert a != "EMAIL" && a != "SMS" by { assert a[|e|] == ':'; }
    PortActionCommitsWhenComplete(st, key, i, a, y, m);
  }

  /** The writer splits `e:x:y:m` at its first two colons: action `e`, asset
      `x`, mode `y:m`. With `e` being `EMAIL` or `SMS` the action is not well
      formed. */
  lemma ColonActionWritten(key: string, i: nat, e: string, x: string, y: string, m: string)
    requires e == "EMAIL" || e == "SMS"
    requires ':' !in x
    ensures ActionEvents(key, i, e + ":" + x + ":" + y + ":" + m)
         == [Event(ActionLocator(key, i, "action"), Encode(e)),
             Event(ActionLocator(key, i, "asset"), Encode(x)),
             Event(ActionLocator(key, i, "mode"), Encode(y + ":" + m))]
    ensures !ValidAction(e + ":" + x + ":" + y + ":" + m)
  {
    assert ':' !in e;
    assert e + ":" + x + ":" + y + ":" + m == JoinAction(e, x, y + ":" + m);
    SplitJoin(e, x, y + ":" + m);
  }

  /** A port action whose action part is `EMAIL` or `SMS` followed by a colon
      does not survive a write-and-parse cycle: the leaves it is written as
      add a bare `EMAIL` or `SMS` at once and leave its other parts waiting in
      the slots, where they join the next port action. The cycle lemmas below
      hold for well-formed rules, which exclude such actions. */
  lemma ColonActionLost(st: ParserState, key: string, i: nat, e: string, x: string, y: string, m: string)
    requires '/' !in key && st.slots == NoSlots
    requires e == "EMAIL" || e == "SMS"
    requires ':' !in x
    ensures Fold(st, ActionEvents(key, i, e + ":" + x + ":" + y + ":" + m))
         == ParserState(AddResultAction(st.rule, key, e), Slots(None, Some(x), Some(y + ":" + m)))
  {
    ColonActionWritten(key, i, e, x, y, m);
    var e1 := Event(ActionLocator(key, i, "action"), Encode(e));
    var e2 := Event(ActionLocator(key, i, "asset"), Encode(x));
    var e3 := Event(ActionLocator(key, i, "mode"), Encode(y + ":" + m));
    var st1 := ParserState(AddResultAction(st.rule, key, e), NoSlots);
    var st2 := st1.(slots := Slots(None, Some(x), None));
    EmailCommitsAtOnce(st, key, i, e);
    assert Step(st, e1) == st1;
    LeafFill(st1, key, i, "asset", x);
    assert Step(st1, e2) == st2;
    LeafFill(st2, key, i, "mode", y + ":" + m);
    assert Step(st2, e3) == st2.(slots := Slots(None, Some(x), Some(y + ":" + m)));
    Fold3(st, e1, e2, e3);
  }

  /** A parsed document is a fixed point of the cycle: writing it and reading
      it again gives the same rule. */
  lemma CycleStable(r: Rule)
    requires WellFormed(r)
    ensures Parse(DocEvents(Parse(DocEvents(r)))) == Parse(DocEvents(r))
  {
    ParseToJson(r);
    NormalizeIdempotent(r);
    ParseToJson(Normalize(r));
  }

  /** A rule without empty model names is written back byte for byte after a
      cycle: rule_json of the parsed rule equals rule_json of the rule. */
  lemma TextStable(r: Rule)
    requires WellFormed(r)
    requires forall i :: 0 <= i < |r.models| ==> r.models[i] != ""
    ensures ToJson(Parse(DocEvents(r))) == ToJson(r)
  {
    ParseToJson(r);
    KeptFilters(Models, r.models);
    var n := Normalize(r);
    TypesNotWritten(r, []);
    MissingTextWrittenEmpty(r);
    MissingTextWrittenEmpty(r.(types := []));
    MissingTextWrittenEmpty(r.(types := [], description := Some(r.description.GetOr(""))));
    assert n == r.(types := [], description := Some(r.description.GetOr("")),
                   logicalAsset := Some(r.logicalAsset.GetOr("")));
  }
}
