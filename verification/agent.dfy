/** The agent of src/flexible_alert.c as an explicit record, with its metric
    handling as functions from the record and an event to the new record and
    the alerts published. The clock is the parameter `now`; the evaluation
    program is an Engine (see module Evaluation); publishing an alert is
    returning it. */
module Agent {
  import opened Strings
  import opened Assoc
  import opened Rules
  import opened Evaluation

  /** Attribute keys of the bus messages. fty_proto.h, which defines them, is
      not part of this model; these are the values the model assumes. */
  const AuxPort := "port"
  const AuxSensorName := "sname"
  const AuxExtPort := "ext-port"
  const AuxDescription := "description"

  /** A metric event, as far as the handlers read it: quantity (the message
      type), asset name, value, time to live and aux attributes. */
  datatype Metric = Metric(quantity: string, name: string, value: string, ttl: nat, aux: Table<string>)

  /** A metric cache entry: the cached message's value, the time it was
      cached and its time to live. */
  datatype Cached = Cached(value: string, time: nat, ttl: nat)

  /** The metric cache, keyed `quantity@asset`. */
  type Cache = Table<Cached>

  /** The agent: rules by name; per asset the names of the rules that apply
      to it, in rule-table order; the metric cache; per asset its display name. */
  datatype Agent = Agent(rules: Table<Rule>, assets: Table<seq<string>>, metrics: Cache, enames: Table<string>)

  /** flexible_alert_new: all four tables empty. */
  const NewAgent := Agent([], [], [], [])

  /** An alert event as flexible_alert_send_alert encodes it, with the topic
      it is published under. */
  datatype Alert = Alert(
    topic: string, time: nat, ttl: nat, rule: string, asset: string,
    state: string, severity: string, message: Option<string>, actions: Option<seq<string>>)

  /** fty_proto_aux_string / fty_proto_ext_string: the attribute, or the default. */
  function AuxString(t: Table<string>, key: string, default: string): string
  {
    Lookup(t, key).GetOr(default)
  }

  /** The metric cache key of a quantity on an asset. */
  function Topic(quantity: string, asset: string): string
  {
    quantity + "@" + asset
  }

  /** Every rule is stored under its own name, as flexible_alert_load_one_rule
      stores it (the hash table refuses a NULL key, so a stored rule has a name). */
  predicate RulesNamed(t: Table<Rule>)
  {
    forall i :: 0 <= i < |t| ==> t[i].1.name == Some(t[i].0)
  }

  lemma NamedLookup(t: Table<Rule>, k: string)
    requires RulesNamed(t) && Lookup(t, k).Some?
    ensures Lookup(t, k).value.name == Some(k)
  {
    var v := Lookup(t, k).value;
    assert (k, v) in t;
    var i :| 0 <= i < |t| && t[i] == (k, v);
  }

  // ---------------------------------------------------------------- alerts

  /** The severity flexible_alert_send_alert gives a result code. */
  function Severity(result: int): (s: string)
    ensures s == "WARNING" <==> result == 1 || result == -1
    ensures s == "CRITICAL" <==> result == 2 || result == -2
    ensures s == "OK" <==> result != 1 && result != -1 && result != 2 && result != -2
  {
    if result == -1 || result == 1 then "WARNING"
    else if result == -2 || result == 2 then "CRITICAL"
    else "OK"
  }

  /** flexible_alert_send_alert: the alert and its topic `rule/severity@asset`. */
  function SendAlert(rule: string, actions: Option<seq<string>>, asset: string, result: int,
                     message: Option<string>, ttl: nat, now: nat): (a: Alert)
    ensures a.topic == rule + "/" + a.severity + "@" + asset
    ensures a.severity == Severity(result)
    ensures a.state == "RESOLVED" <==> result == 0
    ensures a.state == "ACTIVE" <==> result != 0
    ensures a.rule == rule && a.asset == asset && a.time == now && a.ttl == ttl
    ensures a.message == message && a.actions == actions
  {
    Alert(rule + "/" + Severity(result) + "@" + asset, now, ttl, rule, asset,
          if result == 0 then "RESOLVED" else "ACTIVE", Severity(result), message, actions)
  }

  /** The severity agrees with the result key the actions are looked up under:
      the `_critical` keys are CRITICAL, the `_warning` keys WARNING, and `ok`
      and the empty key (any other code) OK. A resolved alert is always OK. */
  lemma SeverityMatchesResultKey(code: int)
    ensures Severity(code) == "CRITICAL" <==> ResultKey(code) in {"low_critical", "high_critical"}
    ensures Severity(code) == "WARNING" <==> ResultKey(code) in {"low_warning", "high_warning"}
    ensures Severity(code) == "OK" <==> ResultKey(code) in {"ok", ""}
    ensures code == 0 ==> Severity(code) == "OK"
  {
  }

  // ------------------------------------------------------------------ TTL

  /** One step of the running minimum in flexible_alert_evaluate: the TTL
      is taken when the current value is 0 or larger. */
  function MinStep(acc: nat, t: nat): nat
  {
    if acc == 0 || acc > t then t else acc
  }

  /** The TTL flexible_alert_evaluate computes over the metrics' TTLs, in order. */
  function RunningTtl(ts: seq<nat>): nat
  {
    if |ts| == 0 then 0 else MinStep(RunningTtl(ts[..|ts| - 1]), ts[|ts| - 1])
  }

  /** When every TTL is positive the running value is their minimum. */
  lemma {:induction false} RunningTtlIsMinimum(ts: seq<nat>)
    requires forall i :: 0 <= i < |ts| ==> ts[i] > 0
    ensures |ts| > 0 ==> RunningTtl(ts) in ts
    ensures forall i :: 0 <= i < |ts| ==> RunningTtl(ts) <= ts[i]
    decreases |ts|
  {
    if |ts| > 0 {
      var p := ts[..|ts| - 1];
      RunningTtlIsMinimum(p);
      assert forall i :: 0 <= i < |p| ==> p[i] == ts[i];
      if |p| > 0 {
        assert RunningTtl(p) in ts;
      }
    }
  }

  /** A zero TTL resets the running value: whatever came before it is
      forgotten, and the result is that of the TTLs after it alone. */
  lemma {:induction false} ZeroResets(pre: seq<nat>, post: seq<nat>)
    ensures RunningTtl(pre + [0] + post) == RunningTtl(post)
    decreases |post|
  {
    var s := pre + [0] + post;
    if |post| == 0 {
      assert s == pre + [0];
      assert s[..|s| - 1] == pre;
    } else {
      var q := post[..|post| - 1];
      ZeroResets(pre, q);
      assert s[..|s| - 1] == pre + [0] + q;
    }
  }

  // ------------------------------------------------------- evaluating a rule

  /** The cached entries of the given metrics on the asset, in the order of
      the metrics; None when one of them is not cached. */
  function Gathered(cache: Cache, metrics: seq<string>, asset: string): (r: Option<seq<Cached>>)
    ensures r.Some? <==> forall i :: 0 <= i < |metrics| ==> Lookup(cache, Topic(metrics[i], asset)).Some?
    ensures r.Some? ==> |r.value| == |metrics|
    ensures r.Some? ==> forall i :: 0 <= i < |metrics| ==> Lookup(cache, Topic(metrics[i], asset)) == Some(r.value[i])
    decreases |metrics|
  {
    if |metrics| == 0 then Some([])
    else
      var init := metrics[..|metrics| - 1];
      var front := Gathered(cache, init, asset);
      var last := Lookup(cache, Topic(metrics[|metrics| - 1], asset));
      assert forall i :: 0 <= i < |init| ==> init[i] == metrics[i];
      if front.None? || last.None? then None
      else
        CachedEntriesSnoc(cache, init, metrics, asset, front.value, last.value);
        Some(front.value + [last.value])
  }

  /** The entries of all but the last metric, then the last one's. */
  lemma CachedEntriesSnoc(cache: Cache, init: seq<string>, metrics: seq<string>, asset: string,
                    front: seq<Cached>, last: Cached)
    requires |metrics| > 0 && init == metrics[..|metrics| - 1] && |front| == |init|
    requires forall i :: 0 <= i < |init| ==> Lookup(cache, Topic(init[i], asset)) == Some(front[i])
    requires Lookup(cache, Topic(metrics[|metrics| - 1], asset)) == Some(last)
    ensures forall i :: 0 <= i < |metrics| ==> Lookup(cache, Topic(metrics[i], asset)) == Some((front + [last])[i])
  {
    forall i | 0 <= i < |metrics|
      ensures Lookup(cache, Topic(metrics[i], asset)) == Some((front + [last])[i])
    {
      if i < |init| {
        assert metrics[i] == init[i];
      }
    }
  }

  function Values(cs: seq<Cached>): (r: seq<string>)
    ensures |r| == |cs| && forall i :: 0 <= i < |cs| ==> r[i] == cs[i].value
  {
    seq(|cs|, i requires 0 <= i < |cs| => cs[i].value)
  }

  function Ttls(cs: seq<Cached>): (r: seq<nat>)
    ensures |r| == |cs| && forall i :: 0 <= i < |cs| ==> r[i] == cs[i].ttl
  {
    seq(|cs|, i requires 0 <= i < |cs| => cs[i].ttl)
  }

  /** One more metric of the rule: a missing one leaves nothing gathered,
      a cached one extends what is gathered by its entry. */
  lemma GatheredSnoc(cache: Cache, metrics: seq<string>, asset: string, i: nat)
    requires i < |metrics| && Gathered(cache, metrics[..i], asset).Some?
    ensures Lookup(cache, Topic(metrics[i], asset)).None? ==> Gathered(cache, metrics, asset).None?
    ensures Lookup(cache, Topic(metrics[i], asset)).Some? ==>
      Gathered(cache, metrics[..i + 1], asset)
        == Some(Gathered(cache, metrics[..i], asset).value + [Lookup(cache, Topic(metrics[i], asset)).value])
  {
    assert metrics[..i + 1][..i] == metrics[..i];
  }

  /** Values and the running TTL of one more cached entry. */
  lemma CachedSnoc(cs: seq<Cached>, c: Cached)
    ensures Values(cs + [c]) == Values(cs) + [c.value]
    ensures RunningTtl(Ttls(cs + [c])) == MinStep(RunningTtl(Ttls(cs)), c.ttl)
  {
    assert Ttls(cs + [c])[..|cs|] == Ttls(cs);
  }

  /** The parameter loop of flexible_alert_evaluate: the cached values of
      the rule's metrics in the rule's order, and the running TTL; no
      parameters as soon as one metric is missing. */
  method GatherParams(cache: Cache, metrics: seq<string>, asset: string) returns (params: Option<seq<string>>, ttl: nat)
    ensures params.Some? <==> Gathered(cache, metrics, asset).Some?
    ensures params.Some? ==> params.value == Values(Gathered(cache, metrics, asset).value)
    ensures params.Some? ==> ttl == RunningTtl(Ttls(Gathered(cache, metrics, asset).value))
  {
    var ps: seq<string> := [];
    ttl := 0;
    var i := 0;
    while i < |metrics|
      invariant 0 <= i <= |metrics|
      invariant Gathered(cache, metrics[..i], asset).Some?
      invariant ps == Values(Gathered(cache, metrics[..i], asset).value)
      invariant ttl == RunningTtl(Ttls(Gathered(cache, metrics[..i], asset).value))
    {
      var m := Lookup(cache, Topic(metrics[i], asset));
      if m.None? {
        return None, ttl;
      }
      GatheredSnoc(cache, metrics, asset, i);
      CachedSnoc(Gathered(cache, metrics[..i], asset).value, m.value);
      if ttl == 0 || ttl > m.value.ttl {
        ttl := m.value.ttl;
      }
      ps := ps + [m.value.value];
      i := i + 1;
    }
    assert metrics[..i] == metrics;
    params := Some(ps);
  }

  /** flexible_alert_evaluate: nothing when a metric of the rule is not
      cached for the asset; otherwise one alert, whatever the result, with
      the actions of the result's key and 5/2 of the running TTL. The code
      means to skip RULE_ERROR, but the test that would do so ends in a stray
      semicolon, so the alert goes out for RULE_ERROR too. */
  function EvaluateRule(cache: Cache, r: Rule, asset: string, ename: Option<string>, engine: Engine, now: nat): (alerts: seq<Alert>)
    requires r.name.Some?
    ensures alerts == [] <==> Gathered(cache, r.metrics, asset).None?
    ensures |alerts| <= 1
    ensures alerts != [] ==> alerts[0].rule == r.name.value && alerts[0].asset == asset
    ensures alerts != [] ==> alerts[0].ttl == RunningTtl(Ttls(Gathered(cache, r.metrics, asset).value)) * 5 / 2
    ensures alerts != [] ==>
      var res := Interpret(engine(CallFor(r, Values(Gathered(cache, r.metrics, asset).value), asset, ename)));
      && alerts[0].severity == Severity(res.0)
      && (alerts[0].state == "RESOLVED" <==> res.0 == 0)
      && alerts[0].message == res.1
      && alerts[0].actions == Lookup(r.results, ResultKey(res.0))
      && alerts[0].topic == r.name.value + "/" + Severity(res.0) + "@" + asset
      && alerts[0].time == now
  {
    match Gathered(cache, r.metrics, asset)
    case None => []
    case Some(cs) =>
      var res := Evaluate(engine, r, Values(cs), asset, ename);
      [SendAlert(r.name.value, ResultActions(r, res.0), asset, res.0, res.1, RunningTtl(Ttls(cs)) * 5 / 2, now)]
  }

  /** An evaluation that yields no result still publishes an alert: state
      ACTIVE, severity OK, no message, and the actions of the empty result key. */
  lemma ErrorStillAlerts(cache: Cache, r: Rule, asset: string, ename: Option<string>, engine: Engine, now: nat)
    requires r.name.Some? && Gathered(cache, r.metrics, asset).Some?
    requires engine(CallFor(r, Values(Gathered(cache, r.metrics, asset).value), asset, ename)).Failed?
    ensures var alerts := EvaluateRule(cache, r, asset, ename, engine, now);
      |alerts| == 1 && alerts[0].state == "ACTIVE" && alerts[0].severity == "OK"
      && alerts[0].message == None && alerts[0].actions == Lookup(r.results, "")
  {
  }

  // ------------------------------------------------------------- the sweep

  predicate Expired(c: Cached, now: nat)
  {
    c.time + c.ttl < now
  }

  /** What is left of a looked-up entry after the sweep. */
  function Fresh(o: Option<Cached>, now: nat): Option<Cached>
  {
    if o.Some? && Expired(o.value, now) then None else o
  }

  /** flexible_alert_clean_metrics as a whole: the entries that have not
      expired, in their order. */
  function Sweep(cache: Cache, now: nat): (r: Cache)
    ensures forall e :: e in r <==> e in cache && !Expired(e.1, now)
    ensures |r| <= |cache|
    decreases |cache|
  {
    if |cache| == 0 then []
    else
      var rest := Sweep(cache[1..], now);
      if Expired(cache[0].1, now) then rest else [cache[0]] + rest
  }

  /** The sweep removes exactly the expired entries and leaves every other
      entry as it was. */
  lemma {:induction false} SweepLookup(cache: Cache, now: nat)
    requires DistinctKeys(cache)
    ensures DistinctKeys(Sweep(cache, now))
    ensures forall k :: Lookup(Sweep(cache, now), k) == Fresh(Lookup(cache, k), now)
    decreases |cache|
  {
    if |cache| > 0 {
      var t := cache[1..];
      var rest := Sweep(t, now);
      assert DistinctKeys(t);
      SweepLookup(t, now);
      var k0 := cache[0].0;
      assert k0 !in Keys(t);
      assert Lookup(t, k0) == None;
      if !Expired(cache[0].1, now) {
        assert ([cache[0]] + rest)[1..] == rest;
      }
    }
  }

  /** The cache after the sweep has visited the keys in `done`: those
      entries are swept, every other entry is as it was. */
  ghost predicate SweptUpTo(out: Cache, cache: Cache, done: seq<string>, now: nat)
  {
    forall k :: Lookup(out, k) == if k in done then Fresh(Lookup(cache, k), now) else Lookup(cache, k)
  }

  /** The loop body of the sweep: drop the entry under `topic` if it has expired. */
  function SweepEntry(out: Cache, topic: string, now: nat): Cache
  {
    var entry := Lookup(out, topic);
    if entry.Some? && Expired(entry.value, now) then Remove(out, topic) else out
  }

  /** One iteration of the sweep loop. */
  lemma SweepOne(out: Cache, cache: Cache, done: seq<string>, topic: string, now: nat)
    requires DistinctKeys(out) && topic !in done && SweptUpTo(out, cache, done, now)
    ensures Lookup(out, topic) == Lookup(cache, topic)
    ensures DistinctKeys(SweepEntry(out, topic, now))
    ensures SweptUpTo(SweepEntry(out, topic, now), cache, done + [topic], now)
  {
  }

  /** In a table without duplicate keys, the i-th key is not among the earlier ones. */
  lemma KeyNotBefore(cache: Cache, i: nat)
    requires DistinctKeys(cache) && i < |cache|
    ensures Keys(cache)[i] !in Keys(cache)[..i]
  {
    var ks := Keys(cache);
    forall j | 0 <= j < i
      ensures ks[..i][j] != ks[i]
    {
      assert ks[j] == cache[j].0;
    }
  }

  /** Once every key has been visited, the cache is the swept cache. */
  lemma SweptAll(out: Cache, cache: Cache, now: nat)
    requires SweptUpTo(out, cache, Keys(cache), now)
    ensures forall k :: Lookup(out, k) == Fresh(Lookup(cache, k), now)
  {
    forall k
      ensures Lookup(out, k) == Fresh(Lookup(cache, k), now)
    {
      if k !in Keys(cache) {
        assert Lookup(cache, k) == None;
      }
    }
  }

  lemma PrefixSnoc(s: seq<string>, i: nat)
    requires i < |s|
    ensures s[..i + 1] == s[..i] + [s[i]]
  {
  }

  lemma SweptSame(out: Cache, cache: Cache, d1: seq<string>, d2: seq<string>, now: nat)
    requires d1 == d2 && SweptUpTo(out, cache, d1, now)
    ensures SweptUpTo(out, cache, d2, now)
  {
  }

  /** The i-th iteration of the sweep extends the visited prefix by one key. */
  lemma SweepIteration(out: Cache, cache: Cache, i: nat, now: nat)
    requires DistinctKeys(cache) && i < |cache|
    requires DistinctKeys(out) && SweptUpTo(out, cache, Keys(cache)[..i], now)
    ensures DistinctKeys(SweepEntry(out, Keys(cache)[i], now))
    ensures SweptUpTo(SweepEntry(out, Keys(cache)[i], now), cache, Keys(cache)[..i + 1], now)
  {
    var topics := Keys(cache);
    KeyNotBefore(cache, i);
    var done := topics[..i];
    assert topics[i] !in done;
    SweepOne(out, cache, done, topics[i], now);
    PrefixSnoc(topics, i);
    SweptSame(SweepEntry(out, topics[i], now), cache, done + [topics[i]], topics[..i + 1], now);
  }

  /** flexible_alert_clean_metrics, loop for loop: walk a snapshot of the
      keys and delete each entry that has expired. */
  method CleanMetrics(cache: Cache, now: nat) returns (out: Cache)
    requires DistinctKeys(cache)
    ensures DistinctKeys(out)
    ensures forall k :: Lookup(out, k) == Fresh(Lookup(cache, k), now)
  {
    var topics := Keys(cache);
    out := cache;
    var i := 0;
    while i < |topics|
      invariant 0 <= i <= |topics|
      invariant DistinctKeys(out)
      invariant SweptUpTo(out, cache, topics[..i], now)
    {
      var topic := topics[i];
      SweepIteration(out, cache, i, now);
      ghost var before := out;
      var entry := Lookup(out, topic);
      if entry.Some? && Expired(entry.value, now) {
        out := Remove(out, topic);
      }
      assert out == SweepEntry(before, topic, now);
      i := i + 1;
    }
    assert topics[..i] == topics;
    SweptAll(out, cache, now);
  }

  // --------------------------------------------------------- metric events

  /** The quantity a metric relayed through another sensor is filed under:
      the text before its second dot, all of it when it has only one. */
  function CutQuantity(q: string): (r: string)
    requires '.' in q
    ensures |r| <= |q| && r == q[..|r|]
    ensures IndexOf(r, '.').Some? && '.' !in r[IndexOf(r, '.').value + 1..]
    ensures |r| < |q| ==> q[|r|] == '.'
  {
    var i := IndexOf(q, '.').value;
    var rest := q[i + 1..];
    match IndexOf(rest, '.')
    case None =>
      q
    case Some(j) =>
      CutFacts(q, i, j);
      q[..i + 1 + j]
  }

  /** Cutting before the second dot keeps the first dot and no other. */
  lemma CutFacts(q: string, i: nat, j: nat)
    requires i < |q| && q[i] == '.' && '.' !in q[..i]
    requires j < |q[i + 1..]| && q[i + 1..][j] == '.' && '.' !in q[i + 1..][..j]
    ensures var r := q[..i + 1 + j];
      IndexOf(r, '.') == Some(i) && '.' !in r[i + 1..] && q[|r|] == '.'
  {
    var r := q[..i + 1 + j];
    assert r[..i] == q[..i] && r[i] == '.';
    assert r[i + 1..] == q[i + 1..][..j];
    assert '.' in r[..i + 1] by { assert r[..i + 1][i] == '.'; }
  }

  /** Cutting is idempotent: a cut quantity is filed under itself. */
  lemma CutIdempotent(q: string)
    requires '.' in q
    ensures var r := CutQuantity(q); '.' in r && CutQuantity(r) == r
  {
    var r := CutQuantity(q);
    var i := IndexOf(r, '.').value;
    assert r[i] == '.';
  }

  /** flexible_alert_handle_metric scans a relayed metric's quantity up to its second dot. Its
      guard against a quantity without any dot compares a pointer with '\0'
      and never fires, so such a quantity sends the scan past the end of the
      string; the model requires the dot. */
  predicate QuantityReadable(m: Metric)
  {
    Lookup(m.aux, AuxExtPort).Some? ==> '.' in m.quantity
  }

  /** The quantity the metric handler files the metric under. */
  function Quantity(m: Metric): (q: string)
    requires QuantityReadable(m)
    ensures |q| <= |m.quantity| && q == m.quantity[..|q|]
    ensures Lookup(m.aux, AuxExtPort).None? ==> q == m.quantity
    ensures Lookup(m.aux, AuxExtPort).Some? ==>
      && IndexOf(q, '.').Some? && '.' !in q[IndexOf(q, '.').value + 1..]
      && (|q| < |m.quantity| ==> m.quantity[|q|] == '.')
  {
    if Lookup(m.aux, AuxExtPort).Some? then CutQuantity(m.quantity) else m.quantity
  }

  /** The nagios shortcut applies: a `nagios.` quantity with a non-empty
      description whose value reads (atoi) as 0, 1 or 2. */
  predicate NagiosAlert(m: Metric)
    ensures NagiosAlert(m) <==>
      && |m.quantity| >= 7 && m.quantity[..7] == "nagios."
      && Lookup(m.aux, AuxDescription).Some? && Lookup(m.aux, AuxDescription).value != ""
      && Atoi(m.value) in {0, 1, 2}
  {
    HasPrefix(m.quantity, "nagios.") && |AuxString(m.aux, AuxDescription, "")| > 0
    && 0 <= Atoi(m.value) <= 2
  }

  /** Every rule the asset index names for the asset is in the rule table;
      flexible_alert_handle_metric asserts on a missing one. */
  predicate IndexedRulesExist(a: Agent, asset: string)
  {
    var fns := Lookup(a.assets, asset).GetOr([]);
    forall i :: 0 <= i < |fns| ==> Lookup(a.rules, fns[i]).Some?
  }

  /** Rule f is in the table and lists the quantity among its metrics. */
  predicate Listed(rules: Table<Rule>, f: string, qty: string)
  {
    Lookup(rules, f).Some? && MetricExists(Lookup(rules, f).value, qty)
  }

  /** Some rule among fns lists the quantity. */
  predicate AnyListed(rules: Table<Rule>, fns: seq<string>, qty: string)
  {
    exists i :: 0 <= i < |fns| && Listed(rules, fns[i], qty)
  }

  /** The evaluations of the metric handler's rule loop: one per rule named
      for the asset that lists the quantity, in index order. */
  function EvaluateAll(cache: Cache, rules: Table<Rule>, fns: seq<string>, qty: string, asset: string,
                       ename: Option<string>, engine: Engine, now: nat): (alerts: seq<Alert>)
    requires RulesNamed(rules)
    requires forall i :: 0 <= i < |fns| ==> Lookup(rules, fns[i]).Some?
    ensures |alerts| <= |fns|
    ensures !AnyListed(rules, fns, qty) ==> alerts == []
    ensures forall j :: 0 <= j < |alerts| ==>
      alerts[j].rule in fns && Listed(rules, alerts[j].rule, qty) && alerts[j].asset == asset
    decreases |fns|
  {
    if |fns| == 0 then []
    else
      var init := fns[..|fns| - 1];
      var f := fns[|fns| - 1];
      var r := Lookup(rules, f).value;
      NamedLookup(rules, f);
      var front := EvaluateAll(cache, rules, init, qty, asset, ename, engine, now);
      var last := if MetricExists(r, qty) then EvaluateRule(cache, r, asset, ename, engine, now) else [];
      AlertsSnoc(rules, fns, qty, asset, front, last);
      front + last
  }

  /** The alerts of all rules but the last, then those of the last rule,
      keep the loop's promises. */
  lemma AlertsSnoc(rules: Table<Rule>, fns: seq<string>, qty: string, asset: string, front: seq<Alert>, last: seq<Alert>)
    requires |fns| > 0 && |front| <= |fns| - 1 && |last| <= 1
    requires !AnyListed(rules, fns[..|fns| - 1], qty) ==> front == []
    requires forall j :: 0 <= j < |front| ==>
      front[j].rule in fns[..|fns| - 1] && Listed(rules, front[j].rule, qty) && front[j].asset == asset
    requires last != [] ==>
      (Listed(rules, fns[|fns| - 1], qty) && last[0].rule == fns[|fns| - 1] && last[0].asset == asset)
    ensures |front + last| <= |fns|
    ensures !AnyListed(rules, fns, qty) ==> front + last == []
    ensures forall j :: 0 <= j < |front + last| ==>
      (front + last)[j].rule in fns && Listed(rules, (front + last)[j].rule, qty) && (front + last)[j].asset == asset
  {
    var init := fns[..|fns| - 1];
    assert forall i :: 0 <= i < |init| ==> init[i] == fns[i];
    assert !AnyListed(rules, fns, qty) ==> !AnyListed(rules, init, qty) && !Listed(rules, fns[|fns| - 1], qty);
    forall j | 0 <= j < |front + last|
      ensures (front + last)[j].rule in fns
    {
      if j < |front| {
        var k :| 0 <= k < |init| && init[k] == front[j].rule;
        assert fns[k] == front[j].rule;
      }
    }
  }

  /** The cache as the metric handler leaves it before anything else: swept
      when the subject of the incoming message is a cache key. */
  function SweptFor(cache: Cache, subject: string, now: nat): Cache
  {
    if Lookup(cache, subject).Some? then Sweep(cache, now) else cache
  }

  /** The nagios alert: named by the quantity, no actions, the description as
      message, the value as result and the metric's own TTL. */
  function NagiosAlertOf(m: Metric, now: nat): Alert
  {
    SendAlert(m.quantity, None, m.name, Atoi(m.value), Some(AuxString(m.aux, AuxDescription, "")), m.ttl, now)
  }

  /** The cache entry a metric is stored as. */
  function Entry(m: Metric, now: nat): Cached
  {
    Cached(m.value, now, m.ttl)
  }

  /** flexible_alert_handle_metric. Only the metric cache changes. A nagios
      metric yields its one alert and nothing else. Otherwise the metric is
      cached under `quantity@asset`, once, exactly when some rule the index
      names for the asset lists the quantity, and those rules are evaluated
      in index order against the cache that already holds it. */
  function HandleMetric(a: Agent, m: Metric, subject: string, engine: Engine, now: nat): (r: (Agent, seq<Alert>))
    requires QuantityReadable(m) && RulesNamed(a.rules)
    requires !NagiosAlert(m) ==> IndexedRulesExist(a, m.name)
    ensures r.0 == a.(metrics := r.0.metrics)
    ensures NagiosAlert(m) ==> r.0.metrics == SweptFor(a.metrics, subject, now) && r.1 == [NagiosAlertOf(m, now)]
    ensures !NagiosAlert(m) ==>
      var fns := Lookup(a.assets, m.name).GetOr([]);
      var cached := AnyListed(a.rules, fns, Quantity(m));
      (cached ==> Lookup(r.0.metrics, Topic(Quantity(m), m.name)) == Some(Entry(m, now)))
      && (forall k :: (k != Topic(Quantity(m), m.name) || !cached) ==>
            Lookup(r.0.metrics, k) == Lookup(SweptFor(a.metrics, subject, now), k))
      && r.1 == EvaluateAll(r.0.metrics, a.rules, fns, Quantity(m), m.name, Lookup(a.enames, m.name), engine, now)
  {
    var cache := SweptFor(a.metrics, subject, now);
    if NagiosAlert(m) then (a.(metrics := cache), [NagiosAlertOf(m, now)])
    else
      var qty := Quantity(m);
      match Lookup(a.assets, m.name)
      case None => (a.(metrics := cache), [])
      case Some(fns) =>
        var cache' := if AnyListed(a.rules, fns, qty) then Put(cache, Topic(qty, m.name), Entry(m, now)) else cache;
        (a.(metrics := cache'), EvaluateAll(cache', a.rules, fns, qty, m.name, Lookup(a.enames, m.name), engine, now))
  }

  lemma AnyListedSnoc(rules: Table<Rule>, fns: seq<string>, i: nat, qty: string)
    requires i < |fns|
    ensures AnyListed(rules, fns[..i + 1], qty) <==> AnyListed(rules, fns[..i], qty) || Listed(rules, fns[i], qty)
  {
    assert forall j :: 0 <= j < i ==> fns[..i + 1][j] == fns[..i][j];
    assert fns[..i + 1][i] == fns[i];
  }

  lemma EvaluateAllSnoc(cache: Cache, rules: Table<Rule>, fns: seq<string>, i: nat, qty: string, asset: string,
                        ename: Option<string>, engine: Engine, now: nat)
    requires RulesNamed(rules) && i < |fns|
    requires forall j :: 0 <= j < |fns| ==> Lookup(rules, fns[j]).Some?
    ensures Lookup(rules, fns[i]).value.name.Some?
    ensures EvaluateAll(cache, rules, fns[..i + 1], qty, asset, ename, engine, now)
      == EvaluateAll(cache, rules, fns[..i], qty, asset, ename, engine, now)
         + if Listed(rules, fns[i], qty) then EvaluateRule(cache, Lookup(rules, fns[i]).value, asset, ename, engine, now) else []
  {
    NamedLookup(rules, fns[i]);
    assert fns[..i + 1][..i] == fns[..i];
  }

  /** The cache once the handler has run: the metric saved under its topic
      when some rule of the loop lists the quantity. */
  function CacheAfter(cache: Cache, rules: Table<Rule>, fns: seq<string>, m: Metric, qty: string, now: nat): Cache
  {
    if AnyListed(rules, fns, qty) then Put(cache, Topic(qty, m.name), Entry(m, now)) else cache
  }

  /** The invariant of the rule loop of handle_metric after i rules: the
      metric is saved exactly when one of them lists the quantity, and the
      alerts are their evaluations against the final cache. */
  predicate LoopState(cache: Cache, rules: Table<Rule>, fns: seq<string>, i: nat, m: Metric, qty: string,
                      ename: Option<string>, engine: Engine, now: nat, saved: bool, out: Cache, alerts: seq<Alert>)
    requires RulesNamed(rules)
    requires forall k :: 0 <= k < |fns| ==> Lookup(rules, fns[k]).Some?
    requires i <= |fns|
  {
    && (saved <==> AnyListed(rules, fns[..i], qty))
    && out == (if saved then CacheAfter(cache, rules, fns, m, qty, now) else cache)
    && alerts == EvaluateAll(CacheAfter(cache, rules, fns, m, qty, now), rules, fns[..i], qty, m.name, ename, engine, now)
  }

  /** One turn of the rule loop keeps its invariant: the metric is saved at
      the first rule that lists the quantity, and that rule's evaluation
      joins the alerts. */
  lemma MetricLoopTurn(cache: Cache, rules: Table<Rule>, fns: seq<string>, i: nat, m: Metric, qty: string,
                       ename: Option<string>, engine: Engine, now: nat, rule: Rule,
                       saved: bool, out: Cache, alerts: seq<Alert>,
                       saved': bool, out': Cache, alerts': seq<Alert>)
    requires RulesNamed(rules)
    requires forall k :: 0 <= k < |fns| ==> Lookup(rules, fns[k]).Some?
    requires i < |fns| && Lookup(rules, fns[i]) == Some(rule) && rule.name.Some?
    requires LoopState(cache, rules, fns, i, m, qty, ename, engine, now, saved, out, alerts)
    requires saved' == (saved || MetricExists(rule, qty))
    requires out' == if MetricExists(rule, qty) && !saved then Put(out, Topic(qty, m.name), Entry(m, now)) else out
    requires alerts' == if MetricExists(rule, qty) then alerts + EvaluateRule(out', rule, m.name, ename, engine, now) else alerts
    ensures LoopState(cache, rules, fns, i + 1, m, qty, ename, engine, now, saved', out', alerts')
  {
    var final := CacheAfter(cache, rules, fns, m, qty, now);
    AnyListedSnoc(rules, fns, i, qty);
    EvaluateAllSnoc(final, rules, fns, i, qty, m.name, ename, engine, now);
    if MetricExists(rule, qty) {
      assert AnyListed(rules, fns, qty) by { assert Listed(rules, fns[i], qty); }
    }
  }

  /** The rule loop of flexible_alert_handle_metric, loop for loop: the
      metric is cached at the first rule that lists its quantity, and each
      rule that lists it is evaluated against the cache at that point. */
  method MetricLoop(cache: Cache, rules: Table<Rule>, fns: seq<string>, m: Metric, qty: string,
                    ename: Option<string>, engine: Engine, now: nat) returns (out: Cache, alerts: seq<Alert>)
    requires RulesNamed(rules)
    requires forall i :: 0 <= i < |fns| ==> Lookup(rules, fns[i]).Some?
    ensures out == if AnyListed(rules, fns, qty) then Put(cache, Topic(qty, m.name), Entry(m, now)) else cache
    ensures alerts == EvaluateAll(out, rules, fns, qty, m.name, ename, engine, now)
  {
    out := cache;
    alerts := [];
    var saved := false;
    var i := 0;
    assert fns[..0] == [];
    while i < |fns|
      invariant 0 <= i <= |fns|
      invariant LoopState(cache, rules, fns, i, m, qty, ename, engine, now, saved, out, alerts)
    {
      ghost var saved0, out0, alerts0 := saved, out, alerts;
      var rule := Lookup(rules, fns[i]).value;
      NamedLookup(rules, fns[i]);
      if MetricExists(rule, qty) {
        if !saved {
          out := Put(out, Topic(qty, m.name), Entry(m, now));
          saved := true;
        }
        alerts := alerts + EvaluateRule(out, rule, m.name, ename, engine, now);
      }
      MetricLoopTurn(cache, rules, fns, i, m, qty, ename, engine, now, rule, saved0, out0, alerts0, saved, out, alerts);
      i := i + 1;
    }
    assert fns[..i] == fns;
  }

  // ---------------------------------------------------------- sensor metrics

  /** is_gpi_metric: the port attribute mentions GPI. */
  predicate IsGpiMetric(m: Metric)
    ensures IsGpiMetric(m) <==> exists i: nat :: OccursAt(AuxString(m.aux, AuxPort, ""), "GPI", i)
    ensures Lookup(m.aux, AuxPort).None? ==> !IsGpiMetric(m)
  {
    ContainsSlice(AuxString(m.aux, AuxPort, ""), "GPI");
    Contains(AuxString(m.aux, AuxPort, ""), "GPI")
  }

  /** A point-to-point message: address, subject, frames. */
  datatype Request = Request(address: string, subject: string, frames: seq<string>)

  /** ask_for_sensor: a REPUBLISH request to the asset agent exactly when the
      sensor is not in the asset index. */
  function AskForSensor(a: Agent, sensor: string): (reqs: seq<Request>)
    ensures reqs == [] <==> Lookup(a.assets, sensor).Some?
    ensures reqs != [] ==> reqs == [Request("asset-agent", "REPUBLISH", ["REPUBLISH", sensor])]
  {
    if Lookup(a.assets, sensor).None? then [Request("asset-agent", "REPUBLISH", ["REPUBLISH", sensor])] else []
  }

  /** flexible_alert_handle_metric_sensor: a metric without a sensor name is
      dropped; otherwise the sensor is asked for when unknown, and the metric,
      renamed to the sensor, is handled as any other metric. */
  function HandleMetricSensor(a: Agent, m: Metric, subject: string, engine: Engine, now: nat): (r: (Agent, seq<Alert>, seq<Request>))
    requires (Lookup(m.aux, AuxSensorName).Some? ==> QuantityReadable(m)) && RulesNamed(a.rules)
    requires Lookup(m.aux, AuxSensorName).Some? && !NagiosAlert(m) ==> IndexedRulesExist(a, Lookup(m.aux, AuxSensorName).value)
    ensures Lookup(m.aux, AuxSensorName).None? ==> r == (a, [], [])
    ensures Lookup(m.aux, AuxSensorName).Some? ==>
      var s := Lookup(m.aux, AuxSensorName).value;
      r.2 == AskForSensor(a, s) && (r.0, r.1) == HandleMetric(a, m.(name := s), subject, engine, now)
  {
    match Lookup(m.aux, AuxSensorName)
    case None => (a, [], [])
    case Some(s) =>
      var res := HandleMetric(a, m.(name := s), subject, engine, now);
      (res.0, res.1, AskForSensor(a, s))
  }
}
