# fty-alert-flexible, modelled in Dafny

fty-alert-flexible is an alert agent. It keeps a table of *flexible rules*. Each rule is a JSON document naming:

- the metrics it needs;
- the assets, groups, models and types it applies to;
- the actions to take for each result;
- variables;
- a Lua program.

When a metric arrives for an asset that some rule applies to, the agent caches it. It then calls each matching rule's program with the rule's metric values for that asset, and publishes an alert whose severity follows the code the program returns. Asset messages keep an index of which rules apply to which asset. Mailbox requests LIST, GET, ADD and DELETE manage the rules, which are stored one file per rule.

This project models the two core files:

- src/rule.c: the rule, its JSON parser (the tokenizer callback), its serialiser, the helpers, and how an evaluation's result is read;
- src/flexible_alert.c: the agent, meaning its metric, sensor and asset handlers, the rule administration, the rule loading, and one step of the actor loop.

The model is functional. Hash tables are ordered association lists. The parser is a fold of the callback over the (locator, value) events the tokenizer reports. The actor is a step function from a state and a message to a new state and the messages it sends.

Modules, one per file:

| module | file | what it holds |
|---|---|---|
| Strings | strings.dfy | `Option`, prefixes, `strchr`/`strrchr`-style searches, decimal digits, `atoi` |
| Assoc | assoc.dfy | association tables standing for `zhash`/`zhashx`: lookup, update in place, insert-if-absent, delete |
| JsonString | jsonstring.dfy | a JSON string escaper and unescaper standing for the tokenizer's string encoding |
| Rules | rules.dfy | the rule record, result keys, action strings `ACTION[:ASSET[:MODE]]`, `rule_add_result_action`, `rule_merge` |
| RuleParser | ruleparser.dfy | `rule_json_callback` as a step over events, and `rule_parse` |
| ParserProperties | parserprops.dfy | what each kind of event does to the parser state |
| RuleJson | rulejson.dfy | `rule_json` and its array writers, as loops and as reference definitions |
| RoundTrip | roundtrip.dfy | the events of a written document, and parsing them back |
| Reload | reload.dfy | names survive a reload; LIST items read back like documents |
| Evaluation | evaluation.dfy | `rule_evaluate`'s call and how the two returned values become a code and a message |
| Agent | agent.dfy | alerts, `evaluate`, the metric cache and its sweep, `handle_metric`, the sensor path |
| AssetIndex | assetindex.dfy | `is_rule_for_this_asset` and `handle_asset` |
| Admin | admin.dfy | LIST, GET, DELETE and ADD |
| Actor | actor.dfy | rule loading, and the pipe, stream and mailbox branches of the actor loop |

The model follows what the C code does, including where it does something other than what a reader might expect:

- The pipe's stop command is `$TERM`.
- The metric handler sweeps the cache when the cache holds the message *subject*, not the stream address.
- `evaluate` sends an alert even when the result is `RULE_ERROR`. The `if` guarding the send ends in a stray `;`, so the guard has no effect (`Agent.ErrorStillAlerts`).
- `variables/` entries are inserted with `zhashx_insert`, which does not overwrite an existing entry. So the first value of a repeated variable wins.
- The `metrics/` prefix is compared on 7 characters, so any locator starting with `metrics` counts as a metric.

## Model

| member | source | states |
|---|---|---|
| Strings.IndexOf | src/rule.c:201 | the position `strchr` finds: none exactly when the character is absent, otherwise the first position holding it |
| Strings.LastSegment | src/rule.c:175 | what follows the last `/` as `strrchr` finds it: a suffix free of `/`, preceded by a `/` unless it is the whole string |
| Strings.SkipSpace | src/flexible_alert.c:300 | the leading white space `atoi` skips: everything skipped is white space, and the rest is a suffix that starts with a non-space |
| Strings.Atoi | src/flexible_alert.c:300 | a negative value only behind a minus sign after the white space; text that has no sign or digit after the white space reads as 0 |
| Strings.AtoiNumeral | src/flexible_alert.c:300 | white space, a decimal numeral and then a non-digit read as the numeral's value |
| Strings.AtoiNegative | src/flexible_alert.c:300 | the same with a minus sign reads as the negated value |
| Strings.ContainsSlice | src/flexible_alert.c:258 | `strstr` finds t in s exactly when t occurs at some position of s |
| Assoc.Lookup | src/rule.c:383 | a lookup finds a value exactly when the key is in the table, and the value is that key's entry |
| Assoc.Put | src/flexible_alert.c:119 | `zhash_update`: the key maps to the new value, every other key keeps its value, a new key goes last, keys stay distinct |
| Assoc.InsertNew | src/rule.c:243 | `zhashx_insert`: an existing key keeps its old value and the table is unchanged; a new key is appended |
| Assoc.Remove | src/flexible_alert.c:243 | `zhash_delete`: the key is gone, every other key keeps its value, nothing new appears |
| Assoc.PutPut | src/flexible_alert.c:336 | updating a key twice is the same as updating it once with the last value |
| JsonString.Encode | src/rule.c:680 | an encoded string is quoted at both ends |
| JsonString.UnescapeEscape | src/rule.c:137 | unescaping undoes escaping, for every string |
| JsonString.DecodeEncode | src/rule.c:137 | decoding an encoded string gives the string back |
| JsonString.DecodeEncodeNullable | src/rule.c:781 | the evaluation field, written as a string or as `null`, decodes back to itself |
| JsonString.EncodeInjective | src/rule.c:743 | distinct strings are written differently, so distinct result keys stay distinct in the document |
| Rules.AppendTo | src/rule.c:147-173 | a list item is appended to its own list; every other field of the rule is unchanged |
| Rules.AssetExists | src/rule.c:272-279 | found exactly when some position of the asset list holds the name |
| Rules.GroupExists | src/rule.c:284-291 | found exactly when some position of the group list holds the name |
| Rules.MetricExists | src/rule.c:297-304 | found exactly when some position of the metric list holds the name |
| Rules.ModelExists | src/rule.c:331-338 | found exactly when some position of the model list holds the name |
| Rules.TypeExists | src/rule.c:344-351 | found exactly when some position of the type list holds the name |
| Rules.ResultKey | src/rule.c:356-386 | the empty key exactly for codes outside -2..2; a code in range gets the key that names it back |
| Rules.ResultActions | src/rule.c:356-386 | none exactly when no entry of the table has the code's key, otherwise that entry's list; a code outside -2..2 looks up the empty key |
| Rules.ResultKeyInverse | src/rule.c:356-386 | the codes -2..2 and the five result keys correspond one to one; any other code gives the empty key |
| Rules.AddResultAction | src/rule.c:107-119 | the action is appended to its key's list, which starts empty when absent; other keys and fields are unchanged |
| Rules.Merge | src/rule.c:429-436 | the new rule takes the old rule's result actions; the old rule is left with none; nothing else changes |
| Rules.SplitAction | src/rule.c:614-665 | an action is plain exactly when it has no colon |
| Rules.SplitJoin | src/rule.c:214 | splitting `action:asset:mode` as the serialiser does gives back the three fields, when action and asset have no colon |
| Rules.JoinSplit | src/rule.c:623-654 | joining the three fields of a split port action with mode gives the original string |
| RuleParser.Classify | src/rule.c:135-245 | `name`, `description`, `logical_asset` and `evaluation` are exactly those locators; a metric is any locator that starts with the seven characters `metrics`; the other list items carry their list's prefix; result leaves start with `results/`; a variable is `variables/` followed by its name; an ignored locator is under neither `results/` nor `variables/` |
| RuleParser.Step | src/rule.c:124-248 | an ignored locator changes nothing; only result leaves touch the action slots, and they change nothing in the rule but its results |
| RuleParser.Fold | src/rule.c:253-256 | running the callback over any events keeps the parsed-rule shape |
| RuleParser.Parse | src/rule.c:253-256 | every parsed rule has no empty model or type; distinct result keys free of `/`, each with at least one action; and distinct variables with non-empty values |
| RuleParser.StepKeepsParsed | src/rule.c:124-248 | every event keeps that shape |
| RuleParser.AddKeepsParsed | src/rule.c:107-119 | adding an action under a key without `/` keeps that shape |
| RuleParser.AppendKeepsParsed | src/rule.c:162-173 | appending a list item the callback keeps keeps that shape |
| RuleParser.InsertKeepsParsed | src/rule.c:238-243 | inserting a variable with a non-empty value keeps that shape |
| RuleParser.Settle | src/rule.c:193-219 | settling the action slots changes only the results, and clears the slots whenever it adds an action |
| RuleParser.ResultStep | src/rule.c:174-226 | a `results/` event changes only the results and the slots, and clears the slots whenever it adds an action |
| RuleParser.ParseDocument | src/rule.c:253-256 | parsing fails exactly when the tokenizer fails; otherwise the rule is the callback folded over the events from an empty rule, and it has the parsed-rule shape |
| RuleParser.FoldAppend | src/rule.c:253-256 | the callback over two runs of events is the callback over the first, then the second |
| RuleParser.ClassifyList | src/rule.c:147-173 | a locator under a list prefix is an item of that list |
| RuleParser.ClassifyResult | src/rule.c:174 | a locator under `results/` is a result leaf |
| RuleParser.ClassifyVariable | src/rule.c:231-235 | a locator under `variables/` is the variable named by the rest of the locator |
| ParserProperties.KeptFilters | src/rule.c:162-173 | an item is kept exactly when it is in the input and acceptable; empty models and types are dropped, everything else is kept |
| ParserProperties.ListItemStep | src/rule.c:147-173 | a list item event appends the decoded item to its list, unless it is an empty model or type, and changes nothing else |
| ParserProperties.ListAccumulates | src/rule.c:147-173 | the events of a whole array append exactly the kept items, in order |
| ParserProperties.EnvelopeTransparent | src/rule.c:133 | a locator under `flexible/` acts exactly like the same locator without it |
| ParserProperties.ResultLeafKey | src/rule.c:200-209 | the result key of `results/<key>/...` is `<key>` when it has no slash |
| ParserProperties.ActionStep | src/rule.c:185-192 | a new-format `action`, `asset` or `mode` leaf fills its slot with the decoded value, then settles |
| ParserProperties.OldFormatStep | src/rule.c:175-180 | an old-format leaf `results/<key>/action/<digit...>` fills the action slot, then settles |
| ParserProperties.NewFormatStep | src/rule.c:185-192 | the new-format action leaf fills the action slot, then settles |
| ParserProperties.OldFormatLikeNew | src/rule.c:175-192 | an old-format action entry has the same effect as the new-format action leaf |
| ParserProperties.EmailCommitsAtOnce | src/rule.c:193-219 | an `EMAIL` or `SMS` action is added to its key at once, and the slots are cleared |
| ParserProperties.PortActionWaits | src/rule.c:193-198 | any other action waits in the slots, first alone and then with its asset, and the rule is untouched |
| ParserProperties.PortActionCommitsWhenComplete | src/rule.c:193-219 | action, asset and mode together add `action:asset:mode` under the key of the mode's event |
| ParserProperties.SlotsPersistAcrossGroups | src/rule.c:174-226 | the slots are not cleared between result groups: an asset left over from one key joins the next key's port action |
| ParserProperties.VariableFirstWriteWins | src/rule.c:231-245 | a variable already present, or whose value is `null` or empty, is ignored; otherwise it is appended with its decoded value |
| ParserProperties.ScalarStep | src/rule.c:135-146 | a `name`, `description`, `logical_asset` or `evaluation` event sets that field to the decoded value, or to none |
| ParserProperties.ScalarFrameFold | src/rule.c:135-146 | events for other places leave a scalar field as it was |
| ParserProperties.ScalarLastWriteWins | src/rule.c:135-146 | the last event for a scalar field decides its value |
| RuleJson.ListToJsonArray | src/rule.c:592-612 | the loop with its trailing-separator cut writes the encoded items joined by `, ` inside brackets |
| RuleJson.ListJson | src/rule.c:592-612 | an array in brackets, `[]` exactly when the list is empty |
| RuleJson.ActionObject | src/rule.c:614-665 | an object that starts with the action; an action without a colon is written whole; otherwise the text before the first colon is the action, and the asset key follows it (its value and the mode are stated by `RuleJson.PortNoMode` and `RuleJson.PortWithMode`) |
| RuleJson.PortNoMode | src/rule.c:631-647 | a stored `action:asset` is written as its action and asset, with no mode key |
| RuleJson.PortWithMode | src/rule.c:631-654 | a stored `action:asset:mode` is written as its action, asset and mode |
| RuleJson.ActionsJsonShape | src/rule.c:614-665 | an action array is in brackets, `[]` exactly when there are no actions |
| RuleJson.ActionsToJsonArray | src/rule.c:614-665 | the loop writes one object per action, joined by `, `: the action, then asset and mode when present |
| RuleJson.ToJsonFrame | src/rule.c:672-787 | the written document is one object that opens with the name field and ends with `}` and a newline; the name is written `null` exactly when the rule has none |
| RuleJson.CutSeparator | src/rule.c:659-662 | cutting the last two characters of a separator-terminated list leaves the joined list |
| RuleJson.ResultsToJson | src/rule.c:733-754 | the loop writes every result key with its action array, in table order, joined by `,\n` |
| RuleJson.VariablesToJson | src/rule.c:756-778 | the loop writes every variable as `name:value`, in table order, joined by `,\n`, and writes nothing when there are none |
| RuleJson.MissingTextWrittenEmpty | src/rule.c:687-694 | a missing description or logical asset is written as the empty string |
| RuleJson.TypesNotWritten | src/rule.c:671-788 | the document does not depend on the rule's types |
| RoundTrip.Normalize | src/rule.c:671-788 | what a written document keeps: every field, except that types are dropped, empty models are dropped, and missing texts become empty |
| RoundTrip.HeadPart | src/rule.c:135-146 | the name, description and logical-asset events give a rule with exactly those fields |
| RoundTrip.ListsPart | src/rule.c:147-173 | the four written arrays read back as the rule's metrics, assets and groups, and its non-empty models |
| RoundTrip.ModelsPart | src/rule.c:162-167 | the written models array reads back as the non-empty model names |
| RoundTrip.ActionPart | src/rule.c:174-226 | the leaves one written action object produces add exactly that action to its key |
| RoundTrip.ActionsPart | src/rule.c:107-119 | one key's written action array appends exactly its actions, in order |
| RoundTrip.ResultsPart | src/rule.c:733-754 | the written results section reads back as the same table, in the same order |
| RoundTrip.VariablesPart | src/rule.c:756-778 | the written variables read back as the same table, in the same order |
| RoundTrip.EvaluationStage | src/rule.c:227-230 | the evaluation event completes the normalised rule |
| RoundTrip.ParseToJson | src/rule.c:671-788 | parsing the events of a written well-formed rule gives back the normalised rule |
| RoundTrip.NormalizeIdempotent | src/rule.c:671-788 | normalising twice is normalising once, and it keeps a rule well formed |
| RoundTrip.CycleStable | src/rule.c:854-862 | a second write-and-parse cycle gives the same rule as the first |
| RoundTrip.TextStable | src/rule.c:854-862 | writing the parsed rule gives the same text as writing the rule, when no model is empty |
| RoundTrip.ColonActionStored | src/rule.c:193-219 | action `EMAIL:x` (or `SMS:x`) with asset `y` and mode `m` is stored as `EMAIL:x:y:m` |
| RoundTrip.ColonActionWritten | src/rule.c:623-654 | `EMAIL:x:y:m` is written as action `EMAIL`, asset `x`, mode `y:m`, and it is not a well-formed action |
| RoundTrip.ColonActionLost | src/rule.c:623-654 | reading those leaves back adds a bare `EMAIL` and leaves `x` and `y:m` waiting in the slots |
| Reload.ReparseKeepsName | src/rule.c:857 | reading a written rule back gives the same name, for every rule |
| Reload.FoldWrap | src/rule.c:133 | wrapping every locator in `flexible/` changes nothing about the parse |
| Reload.ListItemReadsBack | src/flexible_alert.c:524 | the events of a LIST item, the document under `flexible`, read back like the bare document |
| Evaluation.CallFor | src/rule.c:528-538 | NAME is the display name when there is one and the instance name otherwise; INAME is the instance name; the parameters are passed in order |
| Evaluation.Evaluate | src/rule.c:518-555 | a failed run, or a return without a number, gives `RULE_ERROR` and no message; a numeric top value is the code and the value below it the message; otherwise a numeric value below is the code and the top value the message |
| Evaluation.Interpret | src/rule.c:539-554 | a numeric top value is the code and the value beneath it the message; failing that, a numeric second value is the code and the top the message; otherwise `RULE_ERROR` and no message |
| Evaluation.OrderIrrelevant | src/rule.c:541-550 | when exactly one of the two returned values is a number, their order does not matter |
| Evaluation.CodeAndMessage | src/rule.c:541-550 | a number and a string, in either order, give that code and that message |
| Evaluation.ErrorUnlessNumber | src/rule.c:523-554 | a result other than `RULE_ERROR` means the program returned and one of its values is a number |
| Agent.Severity | src/flexible_alert.c:161-163 | WARNING exactly for ±1, CRITICAL exactly for ±2, OK for every other result |
| Agent.SendAlert | src/flexible_alert.c:158-184 | the alert's topic is `rule/severity@asset`; it is RESOLVED exactly for result 0 and ACTIVE otherwise; it carries the rule, asset, time, TTL, message and actions given |
| Agent.SeverityMatchesResultKey | src/rule.c:356-386 | the severity and the result key agree: CRITICAL for the critical keys, WARNING for the warning keys, OK for `ok` and the empty key |
| Agent.RunningTtlIsMinimum | src/flexible_alert.c:208 | with positive TTLs, the running TTL is one of them and no larger than any |
| Agent.ZeroResets | src/flexible_alert.c:208 | a zero TTL restarts the running minimum, so only the TTLs after it count |
| Agent.Gathered | src/flexible_alert.c:196-212 | the parameters are gathered exactly when every metric of the rule is cached for the asset, one per metric, in order |
| Agent.GatheredSnoc | src/flexible_alert.c:197-205 | one more metric: when it is not cached nothing is gathered for the whole rule; when it is, the gathered entries grow by exactly its entry |
| Agent.CachedSnoc | src/flexible_alert.c:207-210 | one more entry appends its value to the parameters and takes one step of the running TTL: its TTL replaces a zero or larger running value |
| Agent.GatherParams | src/flexible_alert.c:190-212 | the loop yields the cached values in metric order and the running TTL, or nothing when a metric is missing |
| Agent.EvaluateRule | src/flexible_alert.c:187-230 | one alert exactly when all the rule's metrics are cached, for this rule and asset, with TTL `ttl * 5 / 2` of the running TTL; its severity, state, topic and message come from the engine's outcome, and its actions are those of the outcome's result key |
| Agent.ErrorStillAlerts | src/flexible_alert.c:218-227 | a failed evaluation still sends an ACTIVE alert with severity OK, no message, and the empty key's actions |
| Agent.Sweep | src/flexible_alert.c:235-248 | the sweep keeps exactly the cached entries that are not expired |
| Agent.SweepLookup | src/flexible_alert.c:235-248 | after the sweep, a topic finds its entry when that entry has not expired, and nothing otherwise |
| Agent.CleanMetrics | src/flexible_alert.c:235-248 | the key-by-key deletion loop drops exactly the expired entries and keeps keys distinct |
| Agent.CutQuantity | src/flexible_alert.c:287-296 | the quantity of a sensor on another sensor is cut before its second dot: a prefix with one dot, followed by a dot when shorter |
| Agent.CutIdempotent | src/flexible_alert.c:287-296 | cutting a cut quantity changes nothing |
| Agent.Quantity | src/flexible_alert.c:283-296 | without `ext-port`, the quantity itself; with it, a prefix of the quantity with exactly one dot, followed by a dot when shorter |
| Agent.NagiosAlert | src/flexible_alert.c:298-300 | exactly a quantity that starts with `nagios.`, a non-empty description, and a value that reads as 0, 1 or 2 |
| Agent.EvaluateAll | src/flexible_alert.c:326-346 | at most one alert per indexed rule, none when no indexed rule lists the quantity, each for a rule that lists it and for this asset |
| Agent.HandleMetric | src/flexible_alert.c:268-350 | a nagios metric sends its own alert; otherwise the metric is cached under `quantity@asset` when some indexed rule lists it, and those rules are evaluated; the sweep runs when the subject is cached; only the cache changes |
| Agent.MetricLoop | src/flexible_alert.c:317-346 | the loop saves the metric once, before the first rule that lists it, and evaluates the rules that list it in index order |
| Agent.MetricLoopTurn | src/flexible_alert.c:317-346 | one turn of the rule loop keeps the loop's invariant: saved exactly once some rule so far lists the quantity, and the alerts so far are those rules' evaluations |
| Agent.IsGpiMetric | src/flexible_alert.c:253-262 | exactly when `GPI` occurs somewhere in the port attribute; never when there is no port |
| Agent.AskForSensor | src/flexible_alert.c:352-376 | a REPUBLISH request goes to the asset agent exactly when the sensor is not in the asset index |
| Agent.HandleMetricSensor | src/flexible_alert.c:381-398 | a sensor metric without a sensor name does nothing; otherwise it is handled as a metric of that sensor, after asking for the sensor when it is unknown |
| AssetIndex.GroupHit | src/flexible_alert.c:422-435 | some `group.` attribute of the asset names a group of the rule |
| AssetIndex.IsRuleForAsset | src/flexible_alert.c:404-448 | a GPIO sensor needs its name and model listed; any other asset matches by name, group, model, device part, type or subtype |
| AssetIndex.GpioNeedsBoth | src/flexible_alert.c:410-417 | for a GPIO sensor, a listed name alone or a listed model alone is not enough; both together are |
| AssetIndex.NameMatches | src/flexible_alert.c:419-420 | any other asset listed by name matches |
| AssetIndex.NoSelectorsNoMatch | src/flexible_alert.c:404-448 | a rule with no assets, groups, models or types matches no asset |
| AssetIndex.RulesFor | src/flexible_alert.c:476-483 | the names of the rules that apply to the asset, exactly those, at most one per table entry |
| AssetIndex.RulesForSnoc | src/flexible_alert.c:476-483 | the names come in table order: a rule at the end of the table comes after every other rule that applies |
| AssetIndex.HandleAsset | src/flexible_alert.c:454-499 | delete drops the asset from both indexes; update or inventory stores the applying rules, or drops the asset when none apply, and records the display name when there is one; other operations change nothing; other assets and the rules are untouched |
| AssetIndex.SoundIndexNamesRules | src/flexible_alert.c:329 | when the index names only rules of the table, every rule the metric handler looks up exists |
| AssetIndex.HandleAssetKeepsIndexSound | src/flexible_alert.c:454-499 | asset events only ever index rules of the table |
| Admin.ListRules | src/flexible_alert.c:506-534 | no reply without a type; `ERROR INVALID_TYPE` unless the type is `all` or `flexible`; otherwise `LIST`, type, class, then one item per rule in table order |
| Admin.ListEntryReadsBack | src/flexible_alert.c:521-531 | each LIST item is the rule's document wrapped as `{"flexible": ... }`, and it reads back as the normalised rule |
| Admin.GetRule | src/flexible_alert.c:539-556 | no reply without a name; `OK` and the rule's document when it exists, `ERROR NOT_FOUND` otherwise |
| Admin.DeleteRule | src/flexible_alert.c:561-587 | no reply without a name and a directory; `DOES_NOT_EXISTS` for an unknown rule; `CAN_NOT_REMOVE` and no change when the file stays; otherwise `OK`, and only that rule is gone |
| Admin.DeleteLeavesDangling | src/flexible_alert.c:575 | deleting a rule that the asset index names leaves the index naming a rule that no longer exists |
| Admin.DeleteUnindexed | src/flexible_alert.c:561-587 | DELETE with the removed rule also taken out of every asset's rule list; its replies and rule table are those of `Admin.DeleteRule` |
| Admin.DeleteUnindexedKeepsIndexSound | src/flexible_alert.c:326-330 | after that DELETE the asset index names only rules in the table, so every rule the metric handler looks up for an asset exists |
| Admin.DeleteKeepsRulesNamed | src/flexible_alert.c:561-587 | after a delete, every rule is still stored under its own name |
| Admin.MergeStep | src/flexible_alert.c:605-611 | an incomplete rule for an existing `sensorgpio` rule takes the stored rule's actions, and the stored rule loses them; otherwise nothing changes |
| Admin.AddParsed | src/flexible_alert.c:605-641 | `ALREADY_EXISTS` when a rule of that name remains and it is not `sensorgpio`; `SAVE_FAILURE` when saving fails; otherwise `OK` and the request text, with the saved rule loaded under its name when it loads |
| Admin.AddRule | src/flexible_alert.c:592-641 | no reply without a text or a directory; `INVALID_JSON` when the text does not tokenize; otherwise the add of the parsed rule; only the rule table changes |
| Admin.AddRuleTable | src/flexible_alert.c:623-635 | after an add, the table is the prepared one, or that with the reloaded rule stored under its name |
| Admin.PutKeepsRulesNamed | src/flexible_alert.c:119 | storing a named rule under its name keeps every rule under its own name |
| Admin.MergeKeepsRulesNamed | src/flexible_alert.c:605-611 | the merge keeps every rule under its own name |
| Admin.PreparedKeepsTable | src/flexible_alert.c:605-616 | merging and deleting the old name keep names and keys in order |
| Admin.AddKeepsRulesNamed | src/flexible_alert.c:592-641 | after any ADD, every rule is still stored under its own name |
| Admin.AddKeepsDistinctKeys | src/flexible_alert.c:592-641 | after any ADD, rule names in the table are still distinct |
| Admin.AddNewStores | src/flexible_alert.c:617-635 | adding a rule under a new name stores the reloaded rule under that name and replies `OK` with the request text |
| Admin.AddThenGet | src/flexible_alert.c:592-641 | after adding a new well-formed rule, GET of its name replies with the same document the rule itself writes |
| Admin.AddRefusesDuplicate | src/flexible_alert.c:617-622 | adding a rule whose name exists and is not `sensorgpio` replies `ALREADY_EXISTS` and changes nothing |
| Admin.IncompleteAddKeepsActions | src/flexible_alert.c:605-611 | an incomplete `sensorgpio` rule from autoconfig is stored with the existing rule's actions |
| Actor.LoadOne | src/flexible_alert.c:113-125 | a rule that loads is stored under its name, and other names are unchanged; a failed load changes nothing |
| Actor.LoadRules | src/flexible_alert.c:130-156 | loading never drops a rule: names already in the table keep their places, and new names follow them |
| Actor.LoadRulesUntouched | src/flexible_alert.c:130-156 | a name that no loaded rule file carries keeps its rule |
| Actor.LoadRulesLast | src/flexible_alert.c:130-156 | a name carried by loaded `.rule` files gets the rule of the last such file |
| Actor.LoadRulesKeepsTable | src/flexible_alert.c:130-156 | loading a directory keeps every rule under its own name and the names distinct |
| Actor.PipeStep | src/flexible_alert.c:657-704 | `$TERM` stops the loop; `VERBOSE` sets verbose; `LOADRULES` records the directory and loads its rules; other commands leave the agent as it was |
| Actor.BusStep | src/flexible_alert.c:705-725 | assets go to the asset handler; metrics on the metric stream go to the metric handler; GPI metrics on the sensor stream go to the sensor handler; everything else is ignored; nothing is replied |
| Actor.MailStep | src/flexible_alert.c:726-765 | LIST, GET, ADD and DELETE go to their handlers with the frames in order, and ADD is incomplete exactly when the sender is `fty-autoconfig`; other commands get no reply; only the rule table can change |
| Actor.Step | src/flexible_alert.c:646-790 | a stopped actor does nothing; a pipe message is the pipe step and sends nothing; a stream message is the stream step and keeps the rules; a mailbox request gets its reply back to the sender under the same subject and keeps the asset index; a dropped message changes nothing |
| Actor.InitialInvariant | src/flexible_alert.c:649 | the new agent satisfies the table invariant |
| Actor.HandleMetricKeepsCache | src/flexible_alert.c:268-350 | the metric handler keeps the cache's keys distinct |
| Actor.PipeKeepsInvariant | src/flexible_alert.c:657-704 | pipe commands keep rules under their names and all tables free of duplicate keys |
| Actor.BusKeepsInvariant | src/flexible_alert.c:705-725 | stream messages keep the invariant |
| Actor.MailKeepsInvariant | src/flexible_alert.c:726-783 | mailbox requests keep the invariant |
| Actor.StepKeepsInvariant | src/flexible_alert.c:646-790 | every step keeps the invariant |
| Actor.TermStops | src/flexible_alert.c:661-665 | after `$TERM` the agent is unchanged and every later message is ignored |

## Left out

- The Lua interpreter. Compiling and running a rule's program is an oracle, `Evaluation.Engine`, from the call to its outcome. Interpreter state that survives between calls of the same rule is not modelled.
- The JSON tokenizer (`vsjson_parse`) and string encoder, which are not part of this model. A document is modelled by the (locator, value) events the tokenizer reports for it (`RoundTrip.DocEvents`). Strings are encoded by a concrete escaper that stands in for the tokenizer's. `null` as the encoding of a missing evaluation is an assumption of that stand-in.
- The file system: listing the rule directory, opening it, `rule_load`, `rule_save` and `unlink`.
  - They are inputs: directory entries with what they load (`Actor.DirEntry`), and the save, load and unlink outcomes (`Admin.Files`).
  - A directory that cannot be opened is treated as an empty listing.
- Malamute transport, and the effects of BIND, PRODUCER and CONSUMER, which only configure the client; sends and their failures; the poller; memory management; logging; the command-line entry points.
- The clock. The current time is a parameter.
- Hash order. Every hash is modelled in insertion order, with an update keeping a key's place. LIST, the asset rule lists and the document's results and variables follow that order.
- Header constants, which are not part of this model:
  - `RULE_ERROR` is fixed at 255; the properties only need it outside -2..2;
  - the aux and ext attribute keys (`port`, `sname`, `ext-port`, `description`, `subtype`, `type`, `model`, `device.part`, `name`);
  - the stream names `METRICS` and `_METRICS_SENSOR`.
- Integer widths. `atoi` and `lua_tointeger` are unbounded. TTLs and times are natural numbers, so `ttl * 5 / 2` does not overflow.
- `rule_merge` leaves the stored rule's result table NULL. It is modelled as an empty table. In the C code, a later GET, LIST or evaluation of that rule would call `zhash_first` or `zhash_lookup` on NULL. This happens only when the merged rule stays in the table, that is, after a failed save or reload of the new rule.
- Agent.HandleMetric: requires that a metric with an `ext-port` attribute has a dot in its quantity. The code's "malformed quantity" guard compares a pointer with `'\0'` and never fires. Without a dot, the cut reads past the end of the string.
- Agent.HandleMetric: requires that every rule the asset index names for the asset is in the table, because `rule_metric_exists` asserts on a missing rule. `Admin.DeleteLeavesDangling` shows that a DELETE can break this, so the requirement is not an invariant of the actor.
- Actor.Step: requires what the handlers a message reaches demand (`Actor.Admissible`):
  - the frames the pipe commands pop, which the code asserts;
  - the metric requirements above;
  - a named rule for an ADD whose text tokenizes;
  - named rules from the directory.
  A rule without a name would be stored under a NULL key, which the hash tables refuse.
- RoundTrip.ParseToJson: holds for well-formed rules only. A rule is well formed when:
  - its result keys are distinct, free of `/`, `"` and `\`, and each has at least one action;
  - every action is `EMAIL`, `SMS`, or a port action with a mode;
  - its variable names are distinct, free of `"` and `\`, and have non-empty values.
  Other rules do not come back from the document unchanged, and the model does not say what comes back for them.
- RoundTrip.CycleStable: holds for well-formed rules only, like `RoundTrip.ParseToJson`. The parser can itself produce a rule that is not well formed: `RoundTrip.ColonActionLost` shows one whose second cycle differs from its first.
- RoundTrip.TextStable: holds for well-formed rules without empty model names only. The parser drops empty model names, so a rule with one is written differently after a cycle.
- Admin.AddThenGet: covers only a new name, a well-formed rule without empty model names, and a save, reload and unlink that all succeed. The other ADD outcomes are stated by `Admin.AddParsed`.
- Agent.NagiosAlert, Agent.Quantity, Strings.Atoi: integers are unbounded, so an `atoi` value outside the C `int` range is not modelled.

## Findings

| source | as written | input that shows it | evidently intended | confidence | as-written member | corrected member |
|---|---|---|---|---|---|---|
| src/flexible_alert.c:575 | DELETE removes the rule from the rule table (src/flexible_alert.c:575), but the asset index still lists its name. A later metric for such an asset looks the name up, gets NULL and passes it to `rule_metric_exists`, whose first line is `assert (self)` (src/flexible_alert.c:326-330, src/rule.c:298-300). | Rule `r` lists metric `m`, and asset `A` is indexed with `r`. DELETE `r` succeeds. A metric `m` for `A` then reaches the assertion. | The index never names a missing rule: a deleted rule also leaves every asset's list, or is re-indexed on the next asset update. | medium, not executed | Admin.DeleteLeavesDangling | Admin.DeleteUnindexedKeepsIndexSound |
| src/rule.c:623-654 | The parser (src/rule.c:193-219) stores a port action as `action:asset:mode` without escaping. The writer splits a stored action at its first two colons. So an action part that itself holds a colon is split in the wrong place. | The leaves `action` = `EMAIL:x`, `asset` = `a`, `mode` = `m` under `results/ok/action/0/` are stored as `EMAIL:x:a:m`. That action is written back as action `EMAIL`, asset `x`, mode `a:m`. Read again, it adds a bare `EMAIL` and leaves `x` and `a:m` waiting in the slots. | Writing a parsed rule and parsing it again gives the same rule, as the self-test at src/rule.c:854-862 checks for its sample. | low, not executed | RoundTrip.ColonActionLost | RoundTrip.TextStable |
