/** The administrative requests of src/flexible_alert.c: LIST, GET, DELETE
    and ADD. A reply is the list of its frames; a handler that returns NULL
    gives None. Request frames that may be missing are options. The outcomes
    of unlink, of writing the rule file and of reading it back are inputs,
    and the JSON tokenizer's report on an added rule is given as its event
    walk (None when the text does not tokenize). */
module Admin {
  import opened Strings
  import opened Assoc
  import opened Rules
  import opened RuleParser
  import opened RuleJson
  import opened RoundTrip
  import opened Reload
  import opened Agent
  import opened AssetIndex

  /** One rule in a LIST reply. */
  function ListEntry(r: Rule): string
  {
    "{\"flexible\": " + ToJson(r) + " }"
  }

  function ListEntries(rules: Table<Rule>): (items: seq<string>)
    ensures |items| == |rules|
    ensures forall i :: 0 <= i < |rules| ==> items[i] == ListEntry(rules[i].1)
  {
    seq(|rules|, i requires 0 <= i < |rules| => ListEntry(rules[i].1))
  }

  /** flexible_alert_list_rules: only the types `all` and `flexible` are
      served; the class is echoed, empty when missing; one entry per rule in
      table order. */
  function ListRules(a: Agent, kind: Option<string>, cls: Option<string>): (reply: Option<seq<string>>)
    ensures reply.None? <==> kind.None?
    ensures kind.Some? && kind.value != "all" && kind.value != "flexible" ==> reply == Some(["ERROR", "INVALID_TYPE"])
    ensures kind.Some? && (kind.value == "all" || kind.value == "flexible") ==>
      |reply.value| == 3 + |a.rules| && reply.value[..3] == ["LIST", kind.value, cls.GetOr("")]
      && forall i :: 0 <= i < |a.rules| ==> reply.value[3 + i] == ListEntry(a.rules[i].1)
  {
    match kind
    case None => None
    case Some(k) =>
      if k != "all" && k != "flexible" then Some(["ERROR", "INVALID_TYPE"])
      else
        var head := ["LIST", k, cls.GetOr("")];
        HeadThen(head, ListEntries(a.rules));
        Some(head + ListEntries(a.rules))
  }

  /** Where the frames of a reply with a fixed head sit. */
  lemma HeadThen(head: seq<string>, rest: seq<string>)
    ensures (head + rest)[..|head|] == head
    ensures forall i :: 0 <= i < |rest| ==> (head + rest)[|head| + i] == rest[i]
  {
  }

  /** Each entry of a LIST reply reads back as its rule: the entry is the
      rule's document inside a `flexible` envelope, and parsing its walk
      gives the rule back, normalised. */
  lemma ListEntryReadsBack(a: Agent, kind: string, cls: Option<string>, i: nat)
    requires kind == "all" || kind == "flexible"
    requires i < |a.rules| && WellFormed(a.rules[i].1)
    ensures var reply := ListRules(a, Some(kind), cls).value;
      reply[3 + i] == "{\"flexible\": " + ToJson(a.rules[i].1) + " }"
      && Parse(Wrap(DocEvents(a.rules[i].1))) == Normalize(a.rules[i].1)
  {
    ListItemReadsBack(a.rules[i].1);
  }

  /** flexible_alert_get_rule. */
  function GetRule(a: Agent, name: Option<string>): (reply: Option<seq<string>>)
    ensures reply.None? <==> name.None?
    ensures name.Some? && Lookup(a.rules, name.value).Some? ==> reply == Some(["OK", ToJson(Lookup(a.rules, name.value).value)])
    ensures name.Some? && Lookup(a.rules, name.value).None? ==> reply == Some(["ERROR", "NOT_FOUND"])
  {
    match name
    case None => None
    case Some(n) =>
      match Lookup(a.rules, n)
      case Some(r) => Some(["OK", ToJson(r)])
      case None => Some(["ERROR", "NOT_FOUND"])
  }

  /** flexible_alert_delete_rule: the rule goes only when its file could be
      unlinked. Nothing else changes, the asset index included. */
  function DeleteRule(a: Agent, name: Option<string>, dir: Option<string>, unlinked: bool): (r: (Agent, Option<seq<string>>))
    ensures name.None? || dir.None? ==> r == (a, None)
    ensures r.0 == a.(rules := r.0.rules)
    ensures name.Some? && dir.Some? ==>
      var n := name.value;
      (Lookup(a.rules, n).None? ==> r == (a, Some(["DELETE", n, "ERROR", "DOES_NOT_EXISTS"])))
      && (Lookup(a.rules, n).Some? && !unlinked ==> r == (a, Some(["DELETE", n, "ERROR", "CAN_NOT_REMOVE"])))
      && (Lookup(a.rules, n).Some? && unlinked ==>
            r.1 == Some(["DELETE", n, "OK"]) && Lookup(r.0.rules, n) == None
            && forall k :: k != n ==> Lookup(r.0.rules, k) == Lookup(a.rules, k))
    ensures forall i :: 0 <= i < |r.0.rules| ==> r.0.rules[i] in a.rules
    ensures DistinctKeys(a.rules) ==> DistinctKeys(r.0.rules)
  {
    if name.None? || dir.None? then (a, None)
    else
      var n := name.value;
      if Lookup(a.rules, n).None? then (a, Some(["DELETE", n, "ERROR", "DOES_NOT_EXISTS"]))
      else if unlinked then (a.(rules := Remove(a.rules, n)), Some(["DELETE", n, "OK"]))
      else (a, Some(["DELETE", n, "ERROR", "CAN_NOT_REMOVE"]))
  }

  /** Deleting a rule leaves the asset index naming it: after a successful
      delete of a rule the index lists, the index is no longer sound, and a
      metric for such an asset would reach the assertion in
      flexible_alert_handle_metric. */
  lemma DeleteLeavesDangling(a: Agent, n: string, dir: string, asset: string)
    requires Lookup(a.rules, n).Some?
    requires Lookup(a.assets, asset).Some? && n in Lookup(a.assets, asset).value
    ensures var after := DeleteRule(a, Some(n), Some(dir), true).0;
      !IndexSound(after) && !IndexedRulesExist(after, asset)
  {
    var after := DeleteRule(a, Some(n), Some(dir), true).0;
    assert after == a.(rules := Remove(a.rules, n));
    assert Lookup(after.rules, n) == None;
    assert n !in Keys(after.rules);
    var fns := Lookup(after.assets, asset).GetOr([]);
    var i :| 0 <= i < |fns| && fns[i] == n;
    assert Lookup(after.rules, fns[i]).None?;
  }

  /** An asset's rule names without n. */
  function Unlisted(fns: seq<string>, n: string): (r: seq<string>)
    ensures forall f :: f in r <==> f in fns && f != n
  {
    if |fns| == 0 then []
    else (if fns[0] == n then [] else [fns[0]]) + Unlisted(fns[1..], n)
  }

  /** The asset index with n taken out of every asset's list. */
  function Unindexed(assets: Table<seq<string>>, n: string): (r: Table<seq<string>>)
    ensures forall k :: Lookup(r, k).Some? <==> Lookup(assets, k).Some?
    ensures forall k :: Lookup(r, k).Some? ==> Lookup(r, k).value == Unlisted(Lookup(assets, k).value, n)
  {
    if |assets| == 0 then []
    else
      var rest := Unindexed(assets[1..], n);
      var r := [(assets[0].0, Unlisted(assets[0].1, n))] + rest;
      assert r[1..] == rest;
      r
  }

  /** DELETE as the metric handler needs it: a removed rule also leaves the
      asset index, so the index never names a rule the table lacks. The
      replies and the rule table are those of the code's DELETE. */
  function DeleteUnindexed(a: Agent, name: Option<string>, dir: Option<string>, unlinked: bool): (r: (Agent, Option<seq<string>>))
    ensures r.1 == DeleteRule(a, name, dir, unlinked).1
    ensures r.0 == DeleteRule(a, name, dir, unlinked).0.(assets := r.0.assets)
    ensures name.Some? && r.1 == Some(["DELETE", name.value, "OK"]) ==> r.0.assets == Unindexed(a.assets, name.value)
    ensures !(name.Some? && r.1 == Some(["DELETE", name.value, "OK"])) ==> r.0.assets == a.assets
  {
    var d := DeleteRule(a, name, dir, unlinked);
    if name.Some? && d.1 == Some(["DELETE", name.value, "OK"]) then (d.0.(assets := Unindexed(a.assets, name.value)), d.1)
    else d
  }

  /** The corrected DELETE keeps the asset index sound, so every rule a
      metric's asset names is in the table. */
  lemma DeleteUnindexedKeepsIndexSound(a: Agent, name: Option<string>, dir: Option<string>, unlinked: bool, asset: string)
    requires IndexSound(a)
    ensures IndexSound(DeleteUnindexed(a, name, dir, unlinked).0)
    ensures IndexedRulesExist(DeleteUnindexed(a, name, dir, unlinked).0, asset)
  {
    var after := DeleteUnindexed(a, name, dir, unlinked).0;
    if name.Some? && DeleteUnindexed(a, name, dir, unlinked).1 == Some(["DELETE", name.value, "OK"]) {
      var n := name.value;
      forall k | Lookup(after.assets, k).Some?
        ensures forall f :: f in Lookup(after.assets, k).value ==> f in Keys(after.rules)
      {
        forall f | f in Lookup(after.assets, k).value
          ensures f in Keys(after.rules)
        {
          assert f in Lookup(a.assets, k).value && f != n;
          assert Lookup(after.rules, f) == Lookup(a.rules, f);
        }
      }
    }
    SoundIndexNamesRules(after, asset);
  }

  /** Deleting keeps every rule stored under its own name. */
  lemma DeleteKeepsRulesNamed(a: Agent, name: Option<string>, dir: Option<string>, unlinked: bool)
    requires RulesNamed(a.rules)
    ensures RulesNamed(DeleteRule(a, name, dir, unlinked).0.rules)
  {
  }

  /** The file-system outcomes of an ADD: unlinking the file of a replaced
      rule, writing the new rule's file, and reading it back. */
  datatype Files = Files(unlinked: bool, saved: bool, loaded: bool)

  /** The rule table after the optional merge: an incomplete rule (one sent
      by the autoconfiguration agent) for an existing sensorgpio rule takes
      over that rule's actions, which the stored rule loses. */
  function MergeStep(rules: Table<Rule>, nr: Rule, incomplete: bool): (r: (Table<Rule>, Rule))
    requires nr.name.Some?
    ensures r.1 == nr.(results := r.1.results)
    ensures forall k :: k != nr.name.value ==> Lookup(r.0, k) == Lookup(rules, k)
    ensures incomplete && Lookup(rules, nr.name.value).Some? && Contains(nr.name.value, "sensorgpio") ==>
      r.1.results == Lookup(rules, nr.name.value).value.results
      && Lookup(r.0, nr.name.value) == Some(Lookup(rules, nr.name.value).value.(results := []))
    ensures !(incomplete && Lookup(rules, nr.name.value).Some? && Contains(nr.name.value, "sensorgpio")) ==> r == (rules, nr)
    ensures DistinctKeys(rules) ==> DistinctKeys(r.0)
    ensures forall i :: 0 <= i < |r.0| ==> r.0[i] in rules || (Lookup(rules, nr.name.value).Some? && r.0[i] == (nr.name.value, Lookup(rules, nr.name.value).value.(results := [])))
  {
    var name := nr.name.value;
    var stored := Lookup(rules, name);
    if incomplete && stored.Some? && Contains(name, "sensorgpio") then
      var m := Merge(stored.value, nr);
      PutEntries(rules, name, m.0);
      (Put(rules, name, m.0), m.1)
    else (rules, nr)
  }

  /** The agent after the optional merge and the optional delete of the
      rule being replaced, the state an ADD decides on. */
  function Prepared(a: Agent, nr: Rule, oldName: Option<string>, incomplete: bool, dir: Option<string>, unlinked: bool): Agent
    requires nr.name.Some?
  {
    var a1 := a.(rules := MergeStep(a.rules, nr, incomplete).0);
    if oldName.Some? then DeleteRule(a1, oldName, dir, unlinked).0 else a1
  }

  /** flexible_alert_add_rule once the text has parsed as nr. After the
      optional merge and the optional delete of the rule being replaced, a
      rule of that name that is still there and is not a sensorgpio rule
      refuses the ADD; a failed write refuses it too; on success the reply
      echoes the text and the rule read back from its file is stored under
      its name. */
  function AddParsed(a: Agent, json: string, nr: Rule, oldName: Option<string>,
                     incomplete: bool, dir: string, fs: Files): (r: (Agent, Option<seq<string>>))
    requires nr.name.Some?
    ensures r.0 == a.(rules := r.0.rules)
    ensures var pre := Prepared(a, nr, oldName, incomplete, Some(dir), fs.unlinked);
      var name := nr.name.value;
      (Lookup(pre.rules, name).Some? && !Contains(name, "sensorgpio") ==> r == (pre, Some(["ERROR", "ALREADY_EXISTS"])))
      && (!(Lookup(pre.rules, name).Some? && !Contains(name, "sensorgpio")) ==>
            (!fs.saved ==> r == (pre, Some(["ERROR", "SAVE_FAILURE"])))
            && (fs.saved ==>
                  (r.1 == Some(["OK", json])
                   && (fs.loaded ==> Lookup(r.0.rules, name) == Some(Parse(DocEvents(MergeStep(a.rules, nr, incomplete).1))))
                   && (!fs.loaded ==> r.0 == pre))))
  {
    var name := nr.name.value;
    var written := MergeStep(a.rules, nr, incomplete).1;
    var pre := Prepared(a, nr, oldName, incomplete, Some(dir), fs.unlinked);
    if Lookup(pre.rules, name).Some? && !Contains(name, "sensorgpio") then (pre, Some(["ERROR", "ALREADY_EXISTS"]))
    else if !fs.saved then (pre, Some(["ERROR", "SAVE_FAILURE"]))
    else if !fs.loaded then (pre, Some(["OK", json]))
    else
      var loaded := Parse(DocEvents(written));
      ReparseKeepsName(written);
      (pre.(rules := Put(pre.rules, loaded.name.value, loaded)), Some(["OK", json]))
  }

  /** flexible_alert_add_rule: nothing happens without the text or the rule
      directory; a text that does not tokenize is refused with nothing
      changed. */
  function AddRule(a: Agent, json: Option<string>, tokens: Option<seq<Event>>, oldName: Option<string>,
                   incomplete: bool, dir: Option<string>, fs: Files): (r: (Agent, Option<seq<string>>))
    requires json.Some? && dir.Some? && tokens.Some? ==> Parse(tokens.value).name.Some?
    ensures json.None? || dir.None? ==> r == (a, None)
    ensures json.Some? && dir.Some? && tokens.None? ==> r == (a, Some(["ERROR", "INVALID_JSON"]))
    ensures json.Some? && dir.Some? && tokens.Some? ==>
      r == AddParsed(a, json.value, Parse(tokens.value), oldName, incomplete, dir.value, fs)
    ensures r.0 == a.(rules := r.0.rules)
  {
    if json.None? || dir.None? then (a, None)
    else
      match ParseDocument(tokens)
      case None => (a, Some(["ERROR", "INVALID_JSON"]))
      case Some(nr) => AddParsed(a, json.value, nr, oldName, incomplete, dir.value, fs)
  }

  /** What an ADD leaves in the table: the prepared table, or the prepared
      table with the rule read back stored under its name. */
  lemma AddRuleTable(a: Agent, json: string, nr: Rule, oldName: Option<string>,
                     incomplete: bool, dir: string, fs: Files)
    requires nr.name.Some?
    ensures var pre := Prepared(a, nr, oldName, incomplete, Some(dir), fs.unlinked).rules;
      var loaded := Parse(DocEvents(MergeStep(a.rules, nr, incomplete).1));
      loaded.name.Some?
      && var res := AddParsed(a, json, nr, oldName, incomplete, dir, fs).0.rules;
      res == pre || res == Put(pre, loaded.name.value, loaded)
  {
    var written := MergeStep(a.rules, nr, incomplete).1;
    ReparseKeepsName(written);
    var pre := Prepared(a, nr, oldName, incomplete, Some(dir), fs.unlinked).rules;
    var loaded := Parse(DocEvents(written));
    var res := AddParsed(a, json, nr, oldName, incomplete, dir, fs).0.rules;
    var name := nr.name.value;
    if !(Lookup(pre, name).Some? && !Contains(name, "sensorgpio")) && fs.saved && fs.loaded {
      assert res == Put(pre, loaded.name.value, loaded);
    } else {
      assert res == pre;
    }
  }

  /** Storing a rule under its own name keeps every rule under its own name. */
  lemma PutKeepsRulesNamed(t: Table<Rule>, r: Rule)
    requires RulesNamed(t) && r.name.Some?
    ensures RulesNamed(Put(t, r.name.value, r))
  {
    var u := Put(t, r.name.value, r);
    PutEntries(t, r.name.value, r);
    forall i | 0 <= i < |u|
      ensures u[i].1.name == Some(u[i].0)
    {
      if u[i] != (r.name.value, r) {
        assert u[i] in t;
        var j :| 0 <= j < |t| && t[j] == u[i];
      }
    }
  }

  /** The merge keeps every rule stored under its own name. */
  lemma MergeKeepsRulesNamed(rules: Table<Rule>, nr: Rule, incomplete: bool)
    requires RulesNamed(rules) && nr.name.Some?
    ensures RulesNamed(MergeStep(rules, nr, incomplete).0)
  {
    var name := nr.name.value;
    if incomplete && Lookup(rules, name).Some? && Contains(name, "sensorgpio") {
      NamedLookup(rules, name);
      PutKeepsRulesNamed(rules, Lookup(rules, name).value.(results := []));
    }
  }

  /** The merge and the delete keep every rule under its own name and no name twice. */
  lemma PreparedKeepsTable(a: Agent, nr: Rule, oldName: Option<string>, incomplete: bool, dir: Option<string>, unlinked: bool)
    requires nr.name.Some?
    ensures RulesNamed(a.rules) ==> RulesNamed(Prepared(a, nr, oldName, incomplete, dir, unlinked).rules)
    ensures DistinctKeys(a.rules) ==> DistinctKeys(Prepared(a, nr, oldName, incomplete, dir, unlinked).rules)
  {
    if RulesNamed(a.rules) {
      MergeKeepsRulesNamed(a.rules, nr, incomplete);
      DeleteKeepsRulesNamed(a.(rules := MergeStep(a.rules, nr, incomplete).0), oldName, dir, unlinked);
    }
  }

  /** Adding keeps every rule stored under its own name: the rule read back
      is stored under the name it reads back with. */
  lemma AddKeepsRulesNamed(a: Agent, json: Option<string>, tokens: Option<seq<Event>>, oldName: Option<string>,
                           incomplete: bool, dir: Option<string>, fs: Files)
    requires json.Some? && dir.Some? && tokens.Some? ==> Parse(tokens.value).name.Some?
    requires RulesNamed(a.rules)
    ensures RulesNamed(AddRule(a, json, tokens, oldName, incomplete, dir, fs).0.rules)
  {
    if json.Some? && dir.Some? && tokens.Some? {
      var nr := Parse(tokens.value);
      PreparedKeepsTable(a, nr, oldName, incomplete, dir, fs.unlinked);
      AddRuleTable(a, json.value, Parse(tokens.value), oldName, incomplete, dir.value, fs);
      var loaded := Parse(DocEvents(MergeStep(a.rules, nr, incomplete).1));
      PutKeepsRulesNamed(Prepared(a, nr, oldName, incomplete, dir, fs.unlinked).rules, loaded);
    }
  }

  /** A new rule that survives the text cycle unchanged is served back by GET
      exactly as rule_json writes it, once added and read back from its file. */
  lemma AddThenGet(a: Agent, json: string, nr: Rule, dir: string)
    requires nr.name.Some? && Lookup(a.rules, nr.name.value).None?
    requires WellFormed(nr)
    requires forall i :: 0 <= i < |nr.models| ==> nr.models[i] != ""
    ensures var after := AddParsed(a, json, nr, None, false, dir, Files(true, true, true));
      after.1 == Some(["OK", json]) && GetRule(after.0, nr.name) == Some(["OK", ToJson(nr)])
  {
    AddNewStores(a, json, nr, dir);
    var loaded := Parse(DocEvents(nr));
    ReparseKeepsName(nr);
    GetStored(a, nr.name.value, loaded);
    TextStable(nr);
  }

  /** GET serves a rule just stored under the name asked for. */
  lemma GetStored(a: Agent, name: string, r: Rule)
    ensures GetRule(a.(rules := Put(a.rules, name, r)), Some(name)) == Some(["OK", ToJson(r)])
  {
  }

  /** A complete ADD of a new name, with every file operation succeeding,
      stores the rule read back from its file under that name. */
  lemma AddNewStores(a: Agent, json: string, nr: Rule, dir: string)
    requires nr.name.Some? && Lookup(a.rules, nr.name.value).None?
    ensures AddParsed(a, json, nr, None, false, dir, Files(true, true, true))
         == (a.(rules := Put(a.rules, nr.name.value, Parse(DocEvents(nr)))), Some(["OK", json]))
  {
    assert MergeStep(a.rules, nr, false) == (a.rules, nr);
    assert Prepared(a, nr, None, false, Some(dir), true) == a;
    ReparseKeepsName(nr);
  }

  /** A rule name already in the table is refused, unless it names a
      sensorgpio rule: nothing changes and the reply is ALREADY_EXISTS. */
  lemma AddRefusesDuplicate(a: Agent, json: string, tokens: seq<Event>, dir: string, fs: Files)
    requires Parse(tokens).name.Some? && Lookup(a.rules, Parse(tokens).name.value).Some?
    requires !Contains(Parse(tokens).name.value, "sensorgpio")
    ensures AddRule(a, Some(json), Some(tokens), None, false, Some(dir), fs) == (a, Some(["ERROR", "ALREADY_EXISTS"]))
  {
  }

  /** Adding keeps the rule table free of duplicate names. */
  lemma AddKeepsDistinctKeys(a: Agent, json: Option<string>, tokens: Option<seq<Event>>, oldName: Option<string>,
                             incomplete: bool, dir: Option<string>, fs: Files)
    requires json.Some? && dir.Some? && tokens.Some? ==> Parse(tokens.value).name.Some?
    requires DistinctKeys(a.rules)
    ensures DistinctKeys(AddRule(a, json, tokens, oldName, incomplete, dir, fs).0.rules)
  {
    if json.Some? && dir.Some? && tokens.Some? {
      PreparedKeepsTable(a, Parse(tokens.value), oldName, incomplete, dir, fs.unlinked);
      AddRuleTable(a, json.value, Parse(tokens.value), oldName, incomplete, dir.value, fs);
    }
  }

  /** An incomplete ADD (one from the autoconfiguration agent) for a stored
      sensorgpio rule keeps the actions configured so far: it is accepted,
      and the rule read back carries the stored rule's results. */
  lemma IncompleteAddKeepsActions(a: Agent, json: string, nr: Rule, dir: string, fs: Files)
    requires nr.name.Some? && Lookup(a.rules, nr.name.value).Some? && Contains(nr.name.value, "sensorgpio")
    requires fs.saved && fs.loaded
    ensures var r := AddParsed(a, json, nr, None, true, dir, fs);
      r.1 == Some(["OK", json])
      && Lookup(r.0.rules, nr.name.value) == Some(Parse(DocEvents(nr.(results := Lookup(a.rules, nr.name.value).value.results))))
  {
    var merged := MergeStep(a.rules, nr, true);
    assert merged.1 == nr.(results := Lookup(a.rules, nr.name.value).value.results);
  }
}
