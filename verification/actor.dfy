/** The command dispatch of flexible_alert_actor (src/flexible_alert.c) as a
    state step: one message in, the new state and what goes out. Connecting
    to the broker, polling and the interrupt flag are not modelled; a step
    receives the message the poller delivered. */
module Actor {
  import opened Strings
  import opened Assoc
  import opened Rules
  import opened RuleParser
  import opened Evaluation
  import opened Agent
  import opened AssetIndex
  import opened RoundTrip
  import opened Admin

  /** Stream names of the metric streams. fty_proto.h, which defines them,
      is not part of this model; these are the values the model assumes. */
  const StreamMetrics := "METRICS"
  const StreamMetricsSensor := "_METRICS_SENSOR"

  /** The sender whose ADD requests carry incomplete rules. */
  const Autoconfig := "fty-autoconfig"

  /** The actor's state: the agent, the rule directory of the last
      LOADRULES, the verbose flag, and whether the loop still runs. */
  datatype State = State(agent: Agent, ruledir: Option<string>, verbose: bool, running: bool)

  /** The state right after start-up. */
  const Initial := State(NewAgent, None, false, true)

  // ------------------------------------------------------------ loading rules

  /** One entry of a rule directory: its name, whether it is a regular file,
      a link or of unknown type, and what rule_load reads from it (None when
      it fails). */
  datatype DirEntry = DirEntry(name: string, plain: bool, loaded: Option<Rule>)

  /** flexible_alert_load_rules only reads entries longer than five
      characters that end in `.rule` and are files or links. */
  predicate IsRuleFile(e: DirEntry)
  {
    e.plain && |e.name| > 5 && e.name[|e.name| - 5..] == ".rule"
  }

  /** The entry is read, and reads as a rule named k. */
  predicate Loads(e: DirEntry, k: string)
  {
    IsRuleFile(e) && e.loaded.Some? && e.loaded.value.name == Some(k)
  }

  /** What rule_load reads has a name: the hash table refuses a NULL key. */
  predicate LoadsNamed(es: seq<DirEntry>)
  {
    forall i :: 0 <= i < |es| ==> (IsRuleFile(es[i]) && es[i].loaded.Some? ==> es[i].loaded.value.name.Some?)
  }

  /** flexible_alert_load_one_rule: a rule that loads replaces the rule of
      its name, in place, or is added at the end. */
  function LoadOne(rules: Table<Rule>, loaded: Option<Rule>): (r: Table<Rule>)
    requires loaded.Some? ==> loaded.value.name.Some?
    ensures loaded.None? ==> r == rules
    ensures loaded.Some? ==> Lookup(r, loaded.value.name.value) == loaded
    ensures loaded.Some? ==> forall k :: k != loaded.value.name.value ==> Lookup(r, k) == Lookup(rules, k)
  {
    match loaded
    case None => rules
    case Some(rule) => Put(rules, rule.name.value, rule)
  }

  /** flexible_alert_load_rules over the entries in directory order. The
      table is not cleared first: no rule is dropped, names already present
      keep their places, and new names follow them. */
  function LoadRules(rules: Table<Rule>, es: seq<DirEntry>): (r: Table<Rule>)
    requires LoadsNamed(es)
    ensures |r| >= |rules| && Keys(r)[..|rules|] == Keys(rules)
    ensures forall k :: k in Keys(rules) ==> k in Keys(r)
    decreases |es|
  {
    if |es| == 0 then rules
    else
      var last := es[|es| - 1];
      var init := LoadRules(rules, es[..|es| - 1]);
      if IsRuleFile(last) then LoadOne(init, last.loaded) else init
  }

  /** The entries before the last. */
  lemma InitLoadsNamed(es: seq<DirEntry>)
    requires |es| > 0 && LoadsNamed(es)
    ensures LoadsNamed(es[..|es| - 1])
  {
    assert forall i :: 0 <= i < |es| - 1 ==> es[..|es| - 1][i] == es[i];
  }

  /** A last entry that does not read as a rule named k leaves k alone. */
  lemma LoadOtherName(rules: Table<Rule>, es: seq<DirEntry>, k: string)
    requires |es| > 0 && LoadsNamed(es) && !Loads(es[|es| - 1], k)
    ensures LoadsNamed(es[..|es| - 1])
    ensures Lookup(LoadRules(rules, es), k) == Lookup(LoadRules(rules, es[..|es| - 1]), k)
  {
    InitLoadsNamed(es);
  }

  /** A name no entry reads as keeps its old rule. */
  lemma {:induction false} LoadRulesUntouched(rules: Table<Rule>, es: seq<DirEntry>, k: string)
    requires LoadsNamed(es)
    requires forall i :: 0 <= i < |es| ==> !Loads(es[i], k)
    ensures Lookup(LoadRules(rules, es), k) == Lookup(rules, k)
    decreases |es|
  {
    if |es| > 0 {
      var init := es[..|es| - 1];
      LoadOtherName(rules, es, k);
      assert forall i :: 0 <= i < |init| ==> init[i] == es[i];
      LoadRulesUntouched(rules, init, k);
    }
  }

  /** After loading, a name holds the rule of the last entry that reads as
      a rule of that name. */
  lemma {:induction false} LoadRulesLast(rules: Table<Rule>, es: seq<DirEntry>, k: string, i: nat)
    requires LoadsNamed(es)
    requires i < |es| && Loads(es[i], k)
    requires forall j :: i < j < |es| ==> !Loads(es[j], k)
    ensures Lookup(LoadRules(rules, es), k) == es[i].loaded
    decreases |es|
  {
    var init := es[..|es| - 1];
    if i < |es| - 1 {
      LoadOtherName(rules, es, k);
      assert forall j :: 0 <= j < |init| ==> init[j] == es[j];
      LoadRulesLast(rules, init, k, i);
    } else {
      InitLoadsNamed(es);
    }
  }

  /** Loading keeps every rule under its own name and no name twice. */
  lemma {:induction false} LoadRulesKeepsTable(rules: Table<Rule>, es: seq<DirEntry>)
    requires LoadsNamed(es)
    requires RulesNamed(rules) && DistinctKeys(rules)
    ensures RulesNamed(LoadRules(rules, es)) && DistinctKeys(LoadRules(rules, es))
    decreases |es|
  {
    if |es| > 0 {
      var init := es[..|es| - 1];
      var last := es[|es| - 1];
      InitLoadsNamed(es);
      LoadRulesKeepsTable(rules, init);
      if IsRuleFile(last) && last.loaded.Some? {
        PutKeepsRulesNamed(LoadRules(rules, init), last.loaded.value);
      }
    }
  }

  // ------------------------------------------------------------ messages

  /** A decoded fty_proto message, as far as the actor tells them apart. */
  datatype Proto = AssetMessage(event: AssetEvent) | MetricMessage(metric: Metric) | OtherProto

  /** What the poller delivers. A pipe command carries its frames and, for
      LOADRULES, the rule directory's entries. A bus message is either a
      fty_proto message, with the broker address (the stream it came on)
      and subject, or a mailbox request with its sender, subject and frames;
      for ADD, the tokenizer's walk of the rule text and the file-system
      outcomes come with it. Anything else is dropped. */
  datatype Message =
    | Pipe(frames: seq<string>, listing: seq<DirEntry>)
    | Bus(address: string, subject: string, proto: Proto)
    | Mailbox(sender: string, subject: string, frames: seq<string>, tokens: Option<seq<Event>>, fs: Files)
    | Dropped

  /** What one step sends: alerts published, requests to other agents, and
      replies to mailbox requests. */
  datatype Output = Output(alerts: seq<Alert>, requests: seq<Request>, replies: seq<Request>)

  const Silent := Output([], [], [])

  /** zmsg_popstr: frame i, or NULL when the message is shorter. */
  function Frame(frames: seq<string>, i: nat): (f: Option<string>)
    ensures f.Some? <==> i < |frames|
    ensures f.Some? ==> f.value == frames[i]
  {
    if i < |frames| then Some(frames[i]) else None
  }

  /** The frames the pipe commands assert are present. */
  predicate PipeComplete(frames: seq<string>)
  {
    |frames| > 0 ==>
      (frames[0] == "BIND" ==> |frames| >= 3)
      && (frames[0] == "PRODUCER" ==> |frames| >= 2)
      && (frames[0] == "CONSUMER" ==> |frames| >= 3)
      && (frames[0] == "LOADRULES" ==> |frames| >= 2)
  }

  /** What the handlers a message reaches demand of it: the pipe commands'
      frames, a readable quantity and indexed rules that exist for metrics,
      a named rule for an ADD that tokenizes, named rules from the directory. */
  predicate Admissible(st: State, msg: Message)
  {
    match msg
    case Pipe(frames, listing) =>
      PipeComplete(frames) && (|frames| > 0 && frames[0] == "LOADRULES" ==> LoadsNamed(listing))
    case Bus(address, _, MetricMessage(m)) =>
      (address == StreamMetrics ==>
         QuantityReadable(m) && (!NagiosAlert(m) ==> IndexedRulesExist(st.agent, m.name)))
      && (address == StreamMetricsSensor && IsGpiMetric(m) ==>
            (Lookup(m.aux, AuxSensorName).Some? ==> QuantityReadable(m))
            && (Lookup(m.aux, AuxSensorName).Some? && !NagiosAlert(m) ==>
                  IndexedRulesExist(st.agent, Lookup(m.aux, AuxSensorName).value)))
    case Bus(_, _, _) => true
    case Mailbox(_, _, frames, tokens, _) =>
      Frame(frames, 0) == Some("ADD") && Frame(frames, 1).Some? && st.ruledir.Some? && tokens.Some? ==>
        Parse(tokens.value).name.Some?
    case Dropped => true
  }

  /** The pipe commands. Only $TERM, LOADRULES and VERBOSE change the
      state; BIND, PRODUCER and CONSUMER configure the broker client. */
  function PipeStep(st: State, frames: seq<string>, listing: seq<DirEntry>): (r: State)
    requires PipeComplete(frames)
    requires |frames| > 0 && frames[0] == "LOADRULES" ==> LoadsNamed(listing)
    ensures r.running == (st.running && Frame(frames, 0) != Some("$TERM"))
    ensures r.verbose == (st.verbose || Frame(frames, 0) == Some("VERBOSE"))
    ensures Frame(frames, 0) == Some("LOADRULES") ==>
      r.ruledir == Some(frames[1]) && r.agent == st.agent.(rules := LoadRules(st.agent.rules, listing))
    ensures Frame(frames, 0) != Some("LOADRULES") ==> r.ruledir == st.ruledir && r.agent == st.agent
  {
    if |frames| == 0 then st
    else if frames[0] == "$TERM" then st.(running := false)
    else if frames[0] == "LOADRULES" then
      st.(ruledir := Some(frames[1]), agent := st.agent.(rules := LoadRules(st.agent.rules, listing)))
    else if frames[0] == "VERBOSE" then st.(verbose := true)
    else st
  }

  /** A fty_proto message the actor ignores: neither an asset nor a metric,
      a metric on another stream, or a non-GPI metric on the sensor stream. */
  predicate Ignored(address: string, p: Proto)
  {
    p.OtherProto?
    || (p.MetricMessage? && address != StreamMetrics && (address != StreamMetricsSensor || !IsGpiMetric(p.metric)))
  }

  /** A fty_proto message: assets update the index; metrics on the metric
      stream are handled as metrics; GPI metrics on the sensor stream as
      sensor metrics; metrics on any other stream and other messages are
      ignored. */
  function BusStep(a: Agent, address: string, subject: string, p: Proto, engine: Engine, now: nat): (r: (Agent, Output))
    requires RulesNamed(a.rules) && Admissible(State(a, None, false, true), Bus(address, subject, p))
    ensures r.1.replies == []
    ensures p.AssetMessage? ==> r == (HandleAsset(a, p.event), Silent)
    ensures p.MetricMessage? && address == StreamMetrics ==>
      var h := HandleMetric(a, p.metric, subject, engine, now);
      r == (h.0, Output(h.1, [], []))
    ensures p.MetricMessage? && address == StreamMetricsSensor && IsGpiMetric(p.metric) ==>
      var h := HandleMetricSensor(a, p.metric, subject, engine, now);
      r == (h.0, Output(h.1, h.2, []))
    ensures Ignored(address, p) ==> r == (a, Silent)
  {
    match p
    case AssetMessage(e) => (HandleAsset(a, e), Silent)
    case MetricMessage(m) =>
      if address == StreamMetrics then
        var h := HandleMetric(a, m, subject, engine, now);
        (h.0, Output(h.1, [], []))
      else if address == StreamMetricsSensor && IsGpiMetric(m) then
        var h := HandleMetricSensor(a, m, subject, engine, now);
        (h.0, Output(h.1, h.2, []))
      else (a, Silent)
    case OtherProto => (a, Silent)
  }

  /** A mailbox request COMMAND/param1/param2: the reply, when the handler
      gives one, goes back to the sender under the request's subject. An ADD
      from the autoconfiguration agent is incomplete. */
  function MailStep(st: State, sender: string, subject: string, frames: seq<string>,
                    tokens: Option<seq<Event>>, fs: Files): (r: (Agent, Option<seq<string>>))
    requires Admissible(st, Mailbox(sender, subject, frames, tokens, fs))
    ensures r.0 == st.agent.(rules := r.0.rules)
    ensures Frame(frames, 0) == Some("LIST") ==> r == (st.agent, ListRules(st.agent, Frame(frames, 1), Frame(frames, 2)))
    ensures Frame(frames, 0) == Some("GET") ==> r == (st.agent, GetRule(st.agent, Frame(frames, 1)))
    ensures Frame(frames, 0) == Some("ADD") ==>
      r == AddRule(st.agent, Frame(frames, 1), tokens, Frame(frames, 2), sender == Autoconfig, st.ruledir, fs)
    ensures Frame(frames, 0) == Some("DELETE") ==> r == DeleteRule(st.agent, Frame(frames, 1), st.ruledir, fs.unlinked)
    ensures Frame(frames, 0) !in {Some("LIST"), Some("GET"), Some("ADD"), Some("DELETE")} ==> r == (st.agent, None)
  {
    var p1 := Frame(frames, 1);
    var p2 := Frame(frames, 2);
    match Frame(frames, 0)
    case None => (st.agent, None)
    case Some(cmd) =>
      if cmd == "LIST" then (st.agent, ListRules(st.agent, p1, p2))
      else if cmd == "GET" then (st.agent, GetRule(st.agent, p1))
      else if cmd == "ADD" then AddRule(st.agent, p1, tokens, p2, sender == Autoconfig, st.ruledir, fs)
      else if cmd == "DELETE" then DeleteRule(st.agent, p1, st.ruledir, fs.unlinked)
      else (st.agent, None)
  }

  /** One turn of the actor loop. Once the loop has stopped nothing more
      happens. */
  function Step(st: State, msg: Message, engine: Engine, now: nat): (r: (State, Output))
    requires RulesNamed(st.agent.rules) && Admissible(st, msg)
    ensures !st.running ==> r == (st, Silent)
    ensures r.0.running ==> st.running
    ensures r.0.verbose == (st.verbose || (st.running && msg.Pipe? && Frame(msg.frames, 0) == Some("VERBOSE")))
    ensures !msg.Pipe? ==> r.0.ruledir == st.ruledir && r.0.running == st.running
    ensures !msg.Mailbox? ==> r.1.replies == []
    ensures msg.Pipe? || msg.Dropped? ==> r.1 == Silent
    ensures msg.Mailbox? && st.running ==>
      var m := MailStep(st, msg.sender, msg.subject, msg.frames, msg.tokens, msg.fs);
      r.0.agent == m.0
      && r.1.replies == (if m.1.Some? then [Request(msg.sender, msg.subject, m.1.value)] else [])
      && r.1.alerts == [] && r.1.requests == []
    ensures msg.Pipe? && st.running ==> r == (PipeStep(st, msg.frames, msg.listing), Silent)
    ensures msg.Bus? && st.running ==>
      var b := BusStep(st.agent, msg.address, msg.subject, msg.proto, engine, now);
      r == (st.(agent := b.0), b.1)
    ensures msg.Dropped? ==> r == (st, Silent)
    ensures msg.Mailbox? ==> r.0.agent.assets == st.agent.assets
    ensures msg.Bus? || msg.Dropped? ==> r.0.agent.rules == st.agent.rules
  {
    if !st.running then (st, Silent)
    else
      match msg
      case Pipe(frames, listing) => (PipeStep(st, frames, listing), Silent)
      case Bus(address, subject, p) =>
        var b := BusStep(st.agent, address, subject, p, engine, now);
        (st.(agent := b.0), b.1)
      case Mailbox(sender, subject, frames, tokens, fs) =>
        var m := MailStep(st, sender, subject, frames, tokens, fs);
        var replies := if m.1.Some? then [Request(sender, subject, m.1.value)] else [];
        (st.(agent := m.0), Output([], [], replies))
      case Dropped => (st, Silent)
  }

  /** What the actor keeps true of its tables: every rule under its own
      name, and no key twice in any table. */
  predicate Invariant(st: State)
  {
    RulesNamed(st.agent.rules) && DistinctKeys(st.agent.rules) && DistinctKeys(st.agent.assets)
    && DistinctKeys(st.agent.metrics) && DistinctKeys(st.agent.enames)
  }

  lemma InitialInvariant()
    ensures Invariant(Initial)
  {
  }

  /** The metric handler keeps the cache free of duplicate keys. */
  lemma HandleMetricKeepsCache(a: Agent, m: Metric, subject: string, engine: Engine, now: nat)
    requires QuantityReadable(m) && RulesNamed(a.rules)
    requires !NagiosAlert(m) ==> IndexedRulesExist(a, m.name)
    requires DistinctKeys(a.metrics)
    ensures DistinctKeys(HandleMetric(a, m, subject, engine, now).0.metrics)
  {
    if Lookup(a.metrics, subject).Some? {
      SweepLookup(a.metrics, now);
    }
    var cache := SweptFor(a.metrics, subject, now);
    assert DistinctKeys(cache);
    var r := HandleMetric(a, m, subject, engine, now).0.metrics;
    if !NagiosAlert(m) {
      var qty := Quantity(m);
      assert r == cache || r == Put(cache, Topic(qty, m.name), Entry(m, now));
    }
  }

  /** Pipe commands keep the invariant. */
  lemma PipeKeepsInvariant(st: State, frames: seq<string>, listing: seq<DirEntry>)
    requires Invariant(st) && PipeComplete(frames)
    requires |frames| > 0 && frames[0] == "LOADRULES" ==> LoadsNamed(listing)
    ensures Invariant(PipeStep(st, frames, listing))
  {
    if |frames| > 0 && frames[0] == "LOADRULES" {
      LoadRulesKeepsTable(st.agent.rules, listing);
    }
  }

  /** Asset and metric messages keep the invariant. */
  lemma BusKeepsInvariant(st: State, address: string, subject: string, p: Proto, engine: Engine, now: nat)
    requires Invariant(st) && Admissible(State(st.agent, None, false, true), Bus(address, subject, p))
    ensures Invariant(st.(agent := BusStep(st.agent, address, subject, p, engine, now).0))
  {
    if p.MetricMessage? && address == StreamMetrics {
      HandleMetricKeepsCache(st.agent, p.metric, subject, engine, now);
    } else if p.MetricMessage? && address == StreamMetricsSensor && IsGpiMetric(p.metric) {
      var m := p.metric;
      if Lookup(m.aux, AuxSensorName).Some? {
        HandleMetricKeepsCache(st.agent, m.(name := Lookup(m.aux, AuxSensorName).value), subject, engine, now);
      }
    }
  }

  /** Mailbox requests keep the invariant. */
  lemma MailKeepsInvariant(st: State, sender: string, subject: string, frames: seq<string>,
                           tokens: Option<seq<Event>>, fs: Files)
    requires Invariant(st) && Admissible(st, Mailbox(sender, subject, frames, tokens, fs))
    ensures Invariant(st.(agent := MailStep(st, sender, subject, frames, tokens, fs).0))
  {
    var p1 := Frame(frames, 1);
    var p2 := Frame(frames, 2);
    if Frame(frames, 0) == Some("ADD") {
      AddKeepsRulesNamed(st.agent, p1, tokens, p2, sender == Autoconfig, st.ruledir, fs);
      AddKeepsDistinctKeys(st.agent, p1, tokens, p2, sender == Autoconfig, st.ruledir, fs);
    } else if Frame(frames, 0) == Some("DELETE") {
      DeleteKeepsRulesNamed(st.agent, p1, st.ruledir, fs.unlinked);
    }
  }

  /** Every step keeps the invariant. */
  lemma StepKeepsInvariant(st: State, msg: Message, engine: Engine, now: nat)
    requires Invariant(st) && Admissible(st, msg)
    ensures Invariant(Step(st, msg, engine, now).0)
  {
    if st.running {
      match msg
      case Pipe(frames, listing) => PipeKeepsInvariant(st, frames, listing);
      case Bus(address, subject, p) => BusKeepsInvariant(st, address, subject, p, engine, now);
      case Mailbox(sender, subject, frames, tokens, fs) => MailKeepsInvariant(st, sender, subject, frames, tokens, fs);
      case Dropped =>
    }
  }

  /** $TERM ends the loop: nothing that follows is handled. */
  lemma TermStops(st: State, rest: seq<string>, msg: Message, engine: Engine, now: nat)
    requires RulesNamed(st.agent.rules) && Admissible(st, msg)
    ensures var stopped := Step(st, Pipe(["$TERM"] + rest, []), engine, now).0;
      !stopped.running && stopped.agent == st.agent
      && Step(stopped, msg, engine, now) == (stopped, Silent)
  {
  }
}
