/** The asset side of src/flexible_alert.c: which rules apply to an asset
    (is_rule_for_this_asset) and the asset index the agent keeps from asset
    events (flexible_alert_handle_asset). */
module AssetIndex {
  import opened Strings
  import opened Assoc
  import opened Rules
  import opened Agent

  /** Attribute keys of asset messages (values assumed, as in module Agent). */
  const AuxSubtype := "subtype"
  const AuxType := "type"
  const ExtModel := "model"
  const ExtDevicePart := "device.part"
  const ExtName := "name"

  /** An asset event, as far as the handler reads it. */
  datatype AssetEvent = AssetEvent(operation: string, name: string, aux: Table<string>, ext: Table<string>)

  /** The group loop of is_rule_for_this_asset: some ext attribute whose key
      starts with `group.` has a value among the rule's groups. */
  function GroupHit(r: Rule, ext: Table<string>): (b: bool)
    ensures b <==> exists i :: 0 <= i < |ext| && HasPrefix(ext[i].0, "group.") && GroupExists(r, ext[i].1)
    decreases |ext|
  {
    if |ext| == 0 then false
    else if HasPrefix(ext[0].0, "group.") && GroupExists(r, ext[0].1) then true
    else
      assert forall i :: 1 <= i < |ext| ==> ext[i] == ext[1..][i - 1];
      GroupHit(r, ext[1..])
  }

  /** is_rule_for_this_asset, test for test. */
  function IsRuleForAsset(r: Rule, e: AssetEvent): (b: bool)
    ensures AuxString(e.aux, AuxSubtype, "") == "sensorgpio" ==>
      (b <==> AssetExists(r, e.name) && ModelExists(r, AuxString(e.ext, ExtModel, "")))
    ensures AuxString(e.aux, AuxSubtype, "") != "sensorgpio" ==>
      (b <==> AssetExists(r, e.name) || GroupHit(r, e.ext)
              || ModelExists(r, AuxString(e.ext, ExtModel, "")) || ModelExists(r, AuxString(e.ext, ExtDevicePart, ""))
              || TypeExists(r, AuxString(e.aux, AuxType, "")) || TypeExists(r, AuxString(e.aux, AuxSubtype, "")))
  {
    if AuxString(e.aux, AuxSubtype, "") == "sensorgpio" then
      AssetExists(r, e.name) && ModelExists(r, AuxString(e.ext, ExtModel, ""))
    else if AssetExists(r, e.name) then true
    else if GroupHit(r, e.ext) then true
    else if ModelExists(r, AuxString(e.ext, ExtModel, "")) then true
    else if ModelExists(r, AuxString(e.ext, ExtDevicePart, "")) then true
    else if TypeExists(r, AuxString(e.aux, AuxType, "")) then true
    else TypeExists(r, AuxString(e.aux, AuxSubtype, ""))
  }

  /** A sensorgpio asset needs both its name and its model listed: a name
      alone or a model alone does not match, whatever the groups and types say. */
  lemma GpioNeedsBoth(r: Rule, e: AssetEvent)
    requires AuxString(e.aux, AuxSubtype, "") == "sensorgpio"
    ensures !AssetExists(r, e.name) ==> !IsRuleForAsset(r, e)
    ensures !ModelExists(r, AuxString(e.ext, ExtModel, "")) ==> !IsRuleForAsset(r, e)
    ensures e.name in r.assets && AuxString(e.ext, ExtModel, "") in r.models ==> IsRuleForAsset(r, e)
  {
  }

  /** Any other asset listed by name matches, whatever its groups, model and type. */
  lemma NameMatches(r: Rule, e: AssetEvent)
    requires AuxString(e.aux, AuxSubtype, "") != "sensorgpio" && e.name in r.assets
    ensures IsRuleForAsset(r, e)
  {
  }

  /** A rule with no assets, groups, models or types applies to no asset. */
  lemma NoSelectorsNoMatch(r: Rule, e: AssetEvent)
    requires r.assets == [] && r.groups == [] && r.models == [] && r.types == []
    ensures !IsRuleForAsset(r, e)
  {
  }

  /** The rule loop of flexible_alert_handle_asset: the names of the rules
      that apply to the asset, in rule-table order. The loop appends
      rule_name (rule); every rule is stored under its own name (RulesNamed),
      so the table key is that name. */
  function RulesFor(rules: Table<Rule>, e: AssetEvent): (fns: seq<string>)
    ensures |fns| <= |rules|
    ensures forall f :: f in fns <==> exists i :: 0 <= i < |rules| && rules[i].0 == f && IsRuleForAsset(rules[i].1, e)
    decreases |rules|
  {
    if |rules| == 0 then []
    else
      var rest := RulesFor(rules[1..], e);
      assert forall i :: 1 <= i < |rules| ==> rules[i] == rules[1..][i - 1];
      (if IsRuleForAsset(rules[0].1, e) then [rules[0].0] else []) + rest
  }

  /** The names come in table order: a rule at the end of the table comes
      after every other rule that applies. */
  lemma {:induction false} RulesForSnoc(rules: Table<Rule>, x: (string, Rule), e: AssetEvent)
    ensures RulesFor(rules + [x], e) == RulesFor(rules, e) + (if IsRuleForAsset(x.1, e) then [x.0] else [])
    decreases |rules|
  {
    var t := if IsRuleForAsset(x.1, e) then [x.0] else [];
    if |rules| == 0 {
      assert rules + [x] == [x];
      assert [x][1..] == [];
      assert RulesFor([x], e) == t + RulesFor([], e);
    } else {
      var h := if IsRuleForAsset(rules[0].1, e) then [rules[0].0] else [];
      assert (rules + [x])[0] == rules[0];
      assert (rules + [x])[1..] == rules[1..] + [x];
      assert RulesFor(rules + [x], e) == h + RulesFor(rules[1..] + [x], e);
      RulesForSnoc(rules[1..], x, e);
      assert RulesFor(rules, e) == h + RulesFor(rules[1..], e);
    }
  }

  /** An `update` or `inventory` event recomputes the asset's rules. */
  predicate Refreshes(e: AssetEvent)
  {
    e.operation == "update" || e.operation == "inventory"
  }

  /** flexible_alert_handle_asset. */
  function HandleAsset(a: Agent, e: AssetEvent): (r: Agent)
    ensures r.rules == a.rules && r.metrics == a.metrics
    ensures forall k :: k != e.name ==> Lookup(r.assets, k) == Lookup(a.assets, k) && Lookup(r.enames, k) == Lookup(a.enames, k)
    ensures e.operation == "delete" ==> Lookup(r.assets, e.name) == None && Lookup(r.enames, e.name) == None
    ensures Refreshes(e) ==>
      Lookup(r.assets, e.name) == if RulesFor(a.rules, e) == [] then None else Some(RulesFor(a.rules, e))
    ensures Refreshes(e) && RulesFor(a.rules, e) != [] && Lookup(e.ext, ExtName).Some? ==>
      Lookup(r.enames, e.name) == Lookup(e.ext, ExtName)
    ensures Refreshes(e) && (RulesFor(a.rules, e) == [] || Lookup(e.ext, ExtName).None?) ==>
      Lookup(r.enames, e.name) == Lookup(a.enames, e.name)
    ensures e.operation != "delete" && !Refreshes(e) ==> r == a
    ensures DistinctKeys(a.assets) ==> DistinctKeys(r.assets)
    ensures DistinctKeys(a.enames) ==> DistinctKeys(r.enames)
  {
    if e.operation == "delete" then
      a.(assets := Remove(a.assets, e.name), enames := Remove(a.enames, e.name))
    else if Refreshes(e) then
      var fns := RulesFor(a.rules, e);
      if fns == [] then a.(assets := Remove(a.assets, e.name))
      else
        var enames := match Lookup(e.ext, ExtName)
          case Some(n) => Put(a.enames, e.name, n)
          case None => a.enames;
        a.(assets := Put(a.assets, e.name, fns), enames := enames)
    else a
  }

  /** Every rule name in the asset index is a rule in the table. */
  ghost predicate IndexSound(a: Agent)
  {
    forall k :: Lookup(a.assets, k).Some? ==> forall f :: f in Lookup(a.assets, k).value ==> f in Keys(a.rules)
  }

  /** A sound index lets the metric handler look up every rule it names. */
  lemma SoundIndexNamesRules(a: Agent, asset: string)
    requires IndexSound(a)
    ensures IndexedRulesExist(a, asset)
  {
    var fns := Lookup(a.assets, asset).GetOr([]);
    forall i | 0 <= i < |fns|
      ensures Lookup(a.rules, fns[i]).Some?
    {
      assert fns[i] in fns;
    }
  }

  /** Asset events keep the index sound: they only ever index rules of the table. */
  lemma HandleAssetKeepsIndexSound(a: Agent, e: AssetEvent)
    requires IndexSound(a)
    ensures IndexSound(HandleAsset(a, e))
  {
    var r := HandleAsset(a, e);
    forall k | Lookup(r.assets, k).Some?
      ensures forall f :: f in Lookup(r.assets, k).value ==> f in Keys(r.rules)
    {
      if k == e.name && Refreshes(e) {
        forall f | f in Lookup(r.assets, k).value
          ensures f in Keys(r.rules)
        {
          var i :| 0 <= i < |a.rules| && a.rules[i].0 == f && IsRuleForAsset(a.rules[i].1, e);
          assert Keys(a.rules)[i] == f;
        }
      }
    }
  }
}
