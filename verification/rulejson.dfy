/** rule_json of src/rule.c: the text a rule is saved as and sent in GET and
    LIST replies. The functions give the text as a whole; the methods follow
    the loops of src/rule.c (append each item and a separator, then cut the last
    separator off; or write the separator before every entry but the first)
    and are proved to produce the same text. */
module RuleJson {
  import opened Strings
  import opened JsonString
  import opened Rules

  /** The parts with sep between consecutive ones. */
  function Join(parts: seq<string>, sep: string): string
  {
    if |parts| == 0 then []
    else if |parts| == 1 then parts[0]
    else Join(parts[..|parts| - 1], sep) + sep + parts[|parts| - 1]
  }

  /** Every part followed by sep, as the list loops write them before the cut. */
  function Terminated(parts: seq<string>, sep: string): string
  {
    if |parts| == 0 then []
    else Terminated(parts[..|parts| - 1], sep) + parts[|parts| - 1] + sep
  }

  /** Cutting the trailing separator off the terminated parts gives the join. */
  lemma {:induction false} TerminatedJoin(parts: seq<string>, sep: string)
    requires |parts| > 0
    ensures Terminated(parts, sep) == Join(parts, sep) + sep
    decreases |parts|
  {
    if |parts| > 1 {
      TerminatedJoin(parts[..|parts| - 1], sep);
    }
  }

  lemma TerminatedSnoc(parts: seq<string>, p: string, sep: string)
    ensures Terminated(parts + [p], sep) == Terminated(parts, sep) + p + sep
  {
    assert (parts + [p])[..|parts|] == parts;
  }

  lemma JoinSnoc(parts: seq<string>, p: string, sep: string)
    ensures Join(parts + [p], sep) == if |parts| == 0 then p else Join(parts, sep) + sep + p
  {
    assert (parts + [p])[..|parts|] == parts;
  }

  /** A join is at least as long as its last part. */
  lemma JoinCoversLast(parts: seq<string>, sep: string)
    ensures |parts| > 0 ==> |Join(parts, sep)| >= |parts[|parts| - 1]|
  {
  }

  function EncodeAll(xs: seq<string>): (r: seq<string>)
    ensures |r| == |xs| && forall i :: 0 <= i < |xs| ==> r[i] == Encode(xs[i])
  {
    seq(|xs|, i requires 0 <= i < |xs| => Encode(xs[i]))
  }

  /** s_zlist_to_json_array: `[` then the encoded items separated by `, ` then `]`. */
  function ListJson(xs: seq<string>): (r: string)
    ensures |r| >= 2 && r[0] == '[' && r[|r| - 1] == ']'
    ensures r == "[]" <==> xs == []
  {
    JoinCoversLast(EncodeAll(xs), ", ");
    "[" + Join(EncodeAll(xs), ", ") + "]"
  }

  /** One object of s_actions_to_json_array. A stored action without a colon
      is written as the action alone; otherwise the text before the first
      colon is the action, up to the next colon (or the end) the asset, and
      the rest after a second colon the mode, left out when there is no
      second colon. */
  function ActionObject(a: string): (r: string)
    ensures HasPrefix(r, "{\"action\": \"") && r[|r| - 1] == '}'
    ensures ':' !in a ==> r == "{\"action\": " + Encode(a) + "}"
    ensures ':' in a ==> HasPrefix(r, "{\"action\": " + Encode(SplitAction(a).action) + ", \"asset\": ")
  {
    match SplitAction(a)
    case Plain(s) => "{\"action\": " + Encode(s) + "}"
    case Port(x, y, m) =>
      "{\"action\": " + Encode(x) + ", \"asset\": " + Encode(y)
      + (if m.Some? then ", \"mode\": " + Encode(m.value) else "") + "}"
  }

  /** A stored `action:asset` is written with its action and asset and no
      mode key. */
  lemma PortNoMode(x: string, y: string)
    requires ':' !in x && ':' !in y
    ensures ActionObject(x + ":" + y) == "{\"action\": " + Encode(x) + ", \"asset\": " + Encode(y) + "}"
  {
    JoinParts(x, y);
    IndexOfAt(x + ":" + y, ':', |x|);
  }

  /** A stored `action:asset:mode` is written with all three keys. */
  lemma PortWithMode(x: string, y: string, m: string)
    requires ':' !in x && ':' !in y
    ensures ActionObject(JoinAction(x, y, m))
      == "{\"action\": " + Encode(x) + ", \"asset\": " + Encode(y) + ", \"mode\": " + Encode(m) + "}"
  {
    SplitJoin(x, y, m);
  }

  function ActionObjects(acts: seq<string>): (r: seq<string>)
    ensures |r| == |acts| && forall i :: 0 <= i < |acts| ==> r[i] == ActionObject(acts[i])
  {
    seq(|acts|, i requires 0 <= i < |acts| => ActionObject(acts[i]))
  }

  /** s_actions_to_json_array as a whole. */
  function ActionsJson(acts: seq<string>): (r: string)
  {
    "[" + Join(ActionObjects(acts), ", ") + "]"
  }

  /** An action array is bracketed, and it is `[]` exactly when there are no
      actions. */
  lemma ActionsJsonShape(acts: seq<string>)
    ensures var r := ActionsJson(acts);
      |r| >= 2 && r[0] == '[' && r[|r| - 1] == ']' && (r == "[]" <==> acts == [])
  {
    JoinCoversLast(ActionObjects(acts), ", ");
  }

  function ResultEntry(key: string, acts: seq<string>): string
  {
    Encode(key) + ": {\"action\": " + ActionsJson(acts) + "}"
  }

  function ResultEntries(t: ActionTable): (r: seq<string>)
    ensures |r| == |t|
  {
    if |t| == 0 then [] else ResultEntries(t[..|t| - 1]) + [ResultEntry(t[|t| - 1].0, t[|t| - 1].1)]
  }

  /** The results section; it is written even when the table is empty. */
  function ResultsJson(t: ActionTable): string
  {
    "\"results\": {\n" + Join(ResultEntries(t), ",\n") + "},\n"
  }

  function VariableEntry(name: string, value: string): string
  {
    Encode(name) + ":" + Encode(value)
  }

  function VariableEntries(t: Variables): (r: seq<string>)
    ensures |r| == |t|
  {
    if |t| == 0 then [] else VariableEntries(t[..|t| - 1]) + [VariableEntry(t[|t| - 1].0, t[|t| - 1].1)]
  }

  /** The variables section; it is left out altogether when there are no variables. */
  function VariablesJson(t: Variables): string
  {
    if |t| == 0 then "" else "\"variables\": {\n" + Join(VariableEntries(t), ",\n") + "},\n"
  }

  /** rule_json. The sections come in the order name, description,
      logical_asset, metrics, assets, models, groups, results, variables,
      evaluation. A missing description or logical asset is written as the
      empty string, a missing name or evaluation as `null`; the types list is
      never written. */
  function ToJson(r: Rule): string
  {
    "{\n\"name\":" + EncodeNullable(r.name) + Fields(r) + "\n}\n"
  }

  /** The sections of rule_json after the name, each after a separator. */
  function Fields(r: Rule): string
  {
    ",\n"
    + "\"description\":" + Encode(r.description.GetOr("")) + ",\n"
    + "\"logical_asset\":" + Encode(r.logicalAsset.GetOr("")) + ",\n"
    + "\"metrics\":" + ListJson(r.metrics) + ",\n"
    + "\"assets\":" + ListJson(r.assets) + ",\n"
    + "\"models\":" + ListJson(r.models) + ",\n"
    + "\"groups\":" + ListJson(r.groups) + ",\n"
    + ResultsJson(r.results)
    + VariablesJson(r.variables)
    + "\"evaluation\":" + EncodeNullable(r.evaluation)
  }

  /** The document is one object: it opens with the name field and closes
      with `}` on a line of its own; the name is written `null` exactly when
      the rule has none. */
  lemma ToJsonFrame(r: Rule)
    ensures HasPrefix(ToJson(r), "{\n\"name\":")
    ensures |ToJson(r)| > 9 && (ToJson(r)[9] == 'n' <==> r.name.None?)
    ensures |ToJson(r)| >= 3 && ToJson(r)[|ToJson(r)| - 3..] == "\n}\n"
  {
    var name := EncodeNullable(r.name);
    assert name[0] == 'n' <==> r.name.None?;
    Framed("{\n\"name\":", name, Fields(r), "\n}\n");
  }

  /** Where the parts of a four-part concatenation sit. */
  lemma Framed(head: string, a: string, b: string, tail: string)
    requires |a| > 0
    ensures var s := head + a + b + tail;
      && s[..|head|] == head && s[|head|] == a[0]
      && s[|s| - |tail|..] == tail
  {
  }

  /** The text ends with the separator-terminated parts; cutting two
      characters leaves the parts joined. */
  lemma CutSeparator(prefix: string, parts: seq<string>)
    requires |parts| > 0
    ensures var s := prefix + Terminated(parts, ", ");
      |s| >= 2 && s[..|s| - 2] == prefix + Join(parts, ", ")
  {
    TerminatedJoin(parts, ", ");
    var s := prefix + Terminated(parts, ", ");
    assert s == (prefix + Join(parts, ", ")) + ", ";
  }

  /** One more item of s_zlist_to_json_array: its encoding and the separator. */
  lemma ListTurn(xs: seq<string>, i: nat)
    requires i < |xs|
    ensures Terminated(EncodeAll(xs[..i + 1]), ", ") == Terminated(EncodeAll(xs[..i]), ", ") + Encode(xs[i]) + ", "
  {
    assert EncodeAll(xs[..i + 1]) == EncodeAll(xs[..i]) + [Encode(xs[i])];
    TerminatedSnoc(EncodeAll(xs[..i]), Encode(xs[i]), ", ");
  }

  /** s_zlist_to_json_array, loop for loop. */
  method ListToJsonArray(xs: seq<string>) returns (json: string)
    ensures json == ListJson(xs)
  {
    json := "[";
    var i := 0;
    while i < |xs|
      invariant 0 <= i <= |xs|
      invariant json == "[" + Terminated(EncodeAll(xs[..i]), ", ")
    {
      ListTurn(xs, i);
      json := json + Encode(xs[i]) + ", ";
      i := i + 1;
    }
    assert xs[..i] == xs;
    ListClose(xs);
    if |xs| > 0 {
      json := json[..|json| - 2];
    }
    json := json + "]";
  }

  /** The end of s_zlist_to_json_array: the trailing separator, when there
      is one, is cut and the bracket closed. */
  lemma ListClose(xs: seq<string>)
    ensures var s := "[" + Terminated(EncodeAll(xs), ", ");
      && (|xs| > 0 ==> |s| >= 2 && s[..|s| - 2] + "]" == ListJson(xs))
      && (|xs| == 0 ==> s + "]" == ListJson(xs))
  {
    if |xs| > 0 {
      CutSeparator("[", EncodeAll(xs));
    }
  }

  lemma ObjectsSnoc(acts: seq<string>, i: nat)
    requires i < |acts|
    ensures ActionObjects(acts[..i + 1]) == ActionObjects(acts[..i]) + [ActionObject(acts[i])]
  {
  }

  lemma EntriesSnoc(t: ActionTable, i: nat)
    requires i < |t|
    ensures ResultEntries(t[..i + 1]) == ResultEntries(t[..i]) + [ResultEntry(t[i].0, t[i].1)]
  {
    assert t[..i + 1][..i] == t[..i];
  }

  /** One turn of the actions loop appends the next object and its separator. */
  lemma ActionsArrayStep(acts: seq<string>, i: nat, json: string)
    requires i < |acts| && json == "[" + Terminated(ActionObjects(acts[..i]), ", ")
    ensures json + ActionObject(acts[i]) + ", " == "[" + Terminated(ActionObjects(acts[..i + 1]), ", ")
  {
    var t := Terminated(ActionObjects(acts[..i]), ", ");
    ObjectsSnoc(acts, i);
    TerminatedSnoc(ActionObjects(acts[..i]), ActionObject(acts[i]), ", ");
    Cat3("[", t, ActionObject(acts[i]), ", ");
  }

  /** s_actions_to_json_array, loop for loop. */
  method ActionsToJsonArray(acts: seq<string>) returns (json: string)
    ensures json == ActionsJson(acts)
  {
    json := "[";
    var i := 0;
    while i < |acts|
      invariant 0 <= i <= |acts|
      invariant json == "[" + Terminated(ActionObjects(acts[..i]), ", ")
    {
      var obj := ActionObject(acts[i]);
      ActionsArrayStep(acts, i, json);
      json := json + obj + ", ";
      i := i + 1;
    }
    assert acts[..i] == acts;
    if |acts| > 0 {
      CutSeparator("[", ActionObjects(acts));
      json := json[..|json| - 2];
    }
    json := json + "]";
  }

  lemma Cat3(a: string, b: string, c: string, d: string)
    ensures a + b + c + d == a + (b + c + d)
  {
  }

  /** The results loop of rule_json: a `,\n` before every entry but the first. */
  method ResultsToJson(t: ActionTable) returns (json: string)
    ensures json == ResultsJson(t)
  {
    var head := "\"results\": {\n";
    json := head;
    var first := true;
    var i := 0;
    while i < |t|
      invariant 0 <= i <= |t|
      invariant first <==> i == 0
      invariant json == head + Join(ResultEntries(t[..i]), ",\n")
    {
      var entries := ResultEntries(t[..i]);
      var tmp := ActionsToJsonArray(t[i].1);
      var entry := Encode(t[i].0) + ": {\"action\": " + tmp + "}";
      assert entry == ResultEntry(t[i].0, t[i].1);
      EntriesSnoc(t, i);
      JoinSnoc(entries, entry, ",\n");
      if first {
        first := false;
        json := json + entry;
      } else {
        Cat3(head, Join(entries, ",\n"), ",\n", entry);
        json := json + ",\n" + entry;
      }
      i := i + 1;
    }
    assert t[..i] == t;
    json := json + "},\n";
  }

  lemma VariableEntriesSnoc(t: Variables, i: nat)
    requires i < |t|
    ensures VariableEntries(t[..i + 1]) == VariableEntries(t[..i]) + [VariableEntry(t[i].0, t[i].1)]
  {
    assert t[..i + 1][..i] == t[..i];
  }

  /** The variables block of rule_json: written only when there are
      variables, with a `,\n` before every entry but the first. */
  method VariablesToJson(t: Variables) returns (json: string)
    ensures json == VariablesJson(t)
  {
    json := "";
    if |t| > 0 {
      var head := "\"variables\": {\n";
      json := head;
      var first := true;
      var i := 0;
      while i < |t|
        invariant 0 <= i <= |t|
        invariant first <==> i == 0
        invariant json == head + Join(VariableEntries(t[..i]), ",\n")
      {
        var entries := VariableEntries(t[..i]);
        var entry := Encode(t[i].0) + ":" + Encode(t[i].1);
        VariableEntriesSnoc(t, i);
        JoinSnoc(entries, entry, ",\n");
        if first {
          first := false;
          json := json + entry;
        } else {
          Cat3(head, Join(entries, ",\n"), ",\n", entry);
          json := json + ",\n" + entry;
        }
        i := i + 1;
      }
      assert t[..i] == t;
      json := json + "},\n";
    }
  }

  /** A missing description or logical asset is written exactly as an empty one. */
  lemma MissingTextWrittenEmpty(r: Rule)
    ensures r.description.None? ==> ToJson(r) == ToJson(r.(description := Some("")))
    ensures r.logicalAsset.None? ==> ToJson(r) == ToJson(r.(logicalAsset := Some("")))
  {
  }

  /** The types list never reaches the text. */
  lemma TypesNotWritten(r: Rule, ts: seq<string>)
    ensures ToJson(r.(types := ts)) == ToJson(r)
  {
  }
}
