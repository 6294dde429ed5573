/** The rule record of src/rule.c and its pure helpers: membership queries,
    the result-code to result-key mapping, result actions and rule_merge. */
module Rules {
  import opened Strings
  import opened Assoc

  /** Result key -> actions in arrival order. An action is the colon-joined
      string the parser stores: `EMAIL`, `SMS`, or `action:asset:mode`. */
  type ActionTable = Table<seq<string>>

  /** Global variables handed to the evaluation program, name -> value. */
  type Variables = Table<string>

  datatype Rule = Rule(
    name: Option<string>,
    description: Option<string>,
    logicalAsset: Option<string>,
    metrics: seq<string>,
    assets: seq<string>,
    groups: seq<string>,
    models: seq<string>,
    types: seq<string>,
    results: ActionTable,
    variables: Variables,
    evaluation: Option<string>)

  /** rule_new: every field absent or empty. */
  const EmptyRule := Rule(None, None, None, [], [], [], [], [], [], [], None)

  /** The five selector lists of a rule. */
  datatype ListField = Metrics | Assets | Groups | Models | Types

  function FieldOf(r: Rule, f: ListField): seq<string>
  {
    match f
    case Metrics => r.metrics
    case Assets => r.assets
    case Groups => r.groups
    case Models => r.models
    case Types => r.types
  }

  /** The rule with list f emptied: two rules with the same Clear(_, f)
      differ at most in list f. */
  function Clear(r: Rule, f: ListField): Rule
  {
    match f
    case Metrics => r.(metrics := [])
    case Assets => r.(assets := [])
    case Groups => r.(groups := [])
    case Models => r.(models := [])
    case Types => r.(types := [])
  }

  /** Two rules that agree on list f and everywhere else are equal. */
  lemma ClearDetermines(a: Rule, b: Rule, f: ListField)
    requires Clear(a, f) == Clear(b, f) && FieldOf(a, f) == FieldOf(b, f)
    ensures a == b
  {
    match f
    case Metrics =>
    case Assets =>
    case Groups =>
    case Models =>
    case Types =>
  }

  /** zlist_append on one of the selector lists; nothing else changes. */
  function AppendTo(r: Rule, f: ListField, x: string): (r': Rule)
    ensures FieldOf(r', f) == FieldOf(r, f) + [x]
    ensures Clear(r', f) == Clear(r, f)
    ensures r'.name == r.name && r'.description == r.description && r'.logicalAsset == r.logicalAsset
    ensures r'.results == r.results && r'.variables == r.variables && r'.evaluation == r.evaluation
  {
    match f
    case Metrics => r.(metrics := r.metrics + [x])
    case Assets => r.(assets := r.assets + [x])
    case Groups => r.(groups := r.groups + [x])
    case Models => r.(models := r.models + [x])
    case Types => r.(types := r.types + [x])
  }

  /** rule_asset_exists, rule_group_exists, rule_metric_exists,
      rule_model_exists, rule_type_exists: zlist_exists with strcmp. */
  predicate AssetExists(r: Rule, asset: string)
    ensures AssetExists(r, asset) <==> exists i :: 0 <= i < |r.assets| && r.assets[i] == asset
  { asset in r.assets }

  predicate GroupExists(r: Rule, group: string)
    ensures GroupExists(r, group) <==> exists i :: 0 <= i < |r.groups| && r.groups[i] == group
  { group in r.groups }

  predicate MetricExists(r: Rule, metric: string)
    ensures MetricExists(r, metric) <==> exists i :: 0 <= i < |r.metrics| && r.metrics[i] == metric
  { metric in r.metrics }

  predicate ModelExists(r: Rule, model: string)
    ensures ModelExists(r, model) <==> exists i :: 0 <= i < |r.models| && r.models[i] == model
  { model in r.models }

  predicate TypeExists(r: Rule, t: string)
    ensures TypeExists(r, t) <==> exists i :: 0 <= i < |r.types| && r.types[i] == t
  { t in r.types }

  /** The key rule_result_actions looks up for a result code. */
  function ResultKey(code: int): (key: string)
    ensures key == "" <==> !(-2 <= code <= 2)
    ensures KeyCode(key) == if -2 <= code <= 2 then Some(code) else None
  {
    if code == -2 then "low_critical"
    else if code == -1 then "low_warning"
    else if code == 0 then "ok"
    else if code == 1 then "high_warning"
    else if code == 2 then "high_critical"
    else ""
  }

  /** The result code a result key names, the reading the evaluation program's
      constants (LOW_CRITICAL = -2 ... HIGH_CRITICAL = 2) give it. */
  function KeyCode(key: string): Option<int>
  {
    if key == "low_critical" then Some(-2)
    else if key == "low_warning" then Some(-1)
    else if key == "ok" then Some(0)
    else if key == "high_warning" then Some(1)
    else if key == "high_critical" then Some(2)
    else None
  }

  /** The five codes map one to one onto the five result keys; every other
      code falls onto the empty key, which names no code. */
  lemma ResultKeyInverse(code: int)
    ensures -2 <= code <= 2 ==> KeyCode(ResultKey(code)) == Some(code)
    ensures !(-2 <= code <= 2) ==> ResultKey(code) == "" && KeyCode(ResultKey(code)) == None
    ensures forall key :: KeyCode(key).Some? ==> ResultKey(KeyCode(key).value) == key
  {
  }

  /** rule_result_actions: the action list stored under the code's key, NULL when none. */
  function ResultActions(r: Rule, code: int): (acts: Option<seq<string>>)
    ensures acts.None? <==> forall i :: 0 <= i < |r.results| ==> r.results[i].0 != ResultKey(code)
    ensures acts.Some? ==> (ResultKey(code), acts.value) in r.results
    ensures !(-2 <= code <= 2) ==> acts == Lookup(r.results, "")
  {
    Lookup(r.results, ResultKey(code))
  }

  /** rule_add_result_action: append the action to the list under key,
      creating the list the first time the key is seen. */
  function AddResultAction(r: Rule, key: string, action: string): (r': Rule)
    ensures Lookup(r'.results, key) == Some(Lookup(r.results, key).GetOr([]) + [action])
    ensures forall k :: k != key ==> Lookup(r'.results, k) == Lookup(r.results, k)
    ensures r' == r.(results := r'.results)
  {
    r.(results := Put(r.results, key, Lookup(r.results, key).GetOr([]) + [action]))
  }

  /** rule_merge: the new rule takes over the old rule's action table. The
      C code leaves the old rule's table pointer NULL; the model leaves the old
      rule with an empty table. */
  function Merge(oldRule: Rule, newRule: Rule): (r: (Rule, Rule))
    ensures r.1.results == oldRule.results && r.0.results == []
    ensures r.1 == newRule.(results := oldRule.results)
    ensures r.0 == oldRule.(results := [])
  {
    (oldRule.(results := []), newRule.(results := oldRule.results))
  }

  /** How s_actions_to_json_array reads a stored action: no colon is a plain
      action; otherwise the text before the first colon is the action, up to
      the next colon the asset, and the rest (when a second colon exists) the mode. */
  datatype ActionView = Plain(action: string) | Port(action: string, asset: string, mode: Option<string>)

  function SplitAction(s: string): (v: ActionView)
    ensures v.Plain? <==> ':' !in s
  {
    var first := IndexOf(s, ':');
    if first.None? then Plain(s)
    else
      var rest := s[first.value + 1..];
      var second := IndexOf(rest, ':');
      if second.None? then Port(s[..first.value], rest, None)
      else Port(s[..first.value], rest[..second.value], Some(rest[second.value + 1..]))
  }

  /** The string the parser commits for a port action: `action:asset:mode`. */
  function JoinAction(action: string, asset: string, mode: string): string
  {
    action + ":" + asset + ":" + mode
  }

  /** Splitting undoes joining when the action and asset hold no colon. */
  lemma SplitJoin(action: string, asset: string, mode: string)
    requires ':' !in action && ':' !in asset
    ensures SplitAction(JoinAction(action, asset, mode)) == Port(action, asset, Some(mode))
  {
    var s := JoinAction(action, asset, mode);
    var rest := asset + ":" + mode;
    assert s == action + ":" + rest;
    JoinParts(action, rest);
    JoinParts(asset, mode);
    IndexOfAt(s, ':', |action|);
    IndexOfAt(rest, ':', |asset|);
  }

  /** The pieces of `a:b`, cut at the colon after a. */
  lemma JoinParts(a: string, b: string)
    ensures var s := a + ":" + b;
      |a| < |s| && s[|a|] == ':' && s[..|a|] == a && s[|a| + 1..] == b
  {
  }

  /** Cutting a string at two colons and joining the parts back gives the string. */
  lemma JoinAt(s: string, i: nat, j: nat)
    requires i < |s| && s[i] == ':'
    requires j < |s[i + 1..]| && s[i + 1..][j] == ':'
    ensures JoinAction(s[..i], s[i + 1..][..j], s[i + 1..][j + 1..]) == s
  {
    var rest := s[i + 1..];
    assert rest == rest[..j] + [rest[j]] + rest[j + 1..];
    assert s == s[..i] + [s[i]] + rest;
  }

  /** Joining undoes splitting: a stored string with two colons is exactly the
      join of the three parts it is printed as. */
  lemma JoinSplit(s: string)
    requires SplitAction(s).Port? && SplitAction(s).mode.Some?
    ensures var v := SplitAction(s); JoinAction(v.action, v.asset, v.mode.value) == s
  {
    var i := IndexOf(s, ':').value;
    JoinAt(s, i, IndexOf(s[i + 1..], ':').value);
  }

  /** The actions that survive a serialise/parse cycle: `EMAIL` or `SMS`, or a
      port action with a mode whose action part is neither. */
  predicate ValidAction(s: string)
  {
    match SplitAction(s)
    case Plain(a) => a == "EMAIL" || a == "SMS"
    case Port(a, _, m) => m.Some? && a != "EMAIL" && a != "SMS"
  }
}
