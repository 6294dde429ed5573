/** Reading back what the agent writes, beyond one rule document: the name of
    a saved rule survives reloading it, and a LIST item, which wraps the rule
    in a `{"flexible": ...}` envelope, reads back like the bare document. */
module Reload {
  import opened Strings
  import opened JsonString
  import opened Rules
  import opened RuleParser
  import opened ParserProperties
  import opened RoundTrip

  /** A locator the envelope stripping leaves alone and that is not `name`:
      it does not start with `f` or `n`. */
  predicate Unwrapped(loc: string)
  {
    |loc| > 0 && loc[0] != 'f' && loc[0] != 'n'
  }

  predicate AllUnwrapped(evs: seq<Event>)
  {
    forall i :: 0 <= i < |evs| ==> Unwrapped(evs[i].locator)
  }

  lemma UnwrappedCat(a: seq<Event>, b: seq<Event>)
    requires AllUnwrapped(a) && AllUnwrapped(b)
    ensures AllUnwrapped(a + b)
  {
    assert forall i :: |a| <= i < |a| + |b| ==> (a + b)[i] == b[i - |a|];
  }

  lemma StartsWith(p: string, t: string)
    requires |p| > 0
    ensures |p + t| > 0 && (p + t)[0] == p[0]
  {
  }

  lemma {:induction false} ListEventsUnwrapped(f: ListField, xs: seq<string>, from: nat)
    ensures AllUnwrapped(ListEvents(f, xs, from))
    decreases |xs|
  {
    if |xs| > 0 {
      ListEventsUnwrapped(f, xs[1..], from + 1);
      StartsWith(ListPrefix(f), NatToString(from));
      var e := Event(ListPrefix(f) + NatToString(from), Encode(xs[0]));
      assert AllUnwrapped([e]);
      UnwrappedCat([e], ListEvents(f, xs[1..], from + 1));
    }
  }

  lemma ActionEventsUnwrapped(key: string, i: nat, a: string)
    ensures AllUnwrapped(ActionEvents(key, i, a))
  {
    StartsWith("results/", key + "/action/" + NatToString(i) + "/" + "action");
    StartsWith("results/", key + "/action/" + NatToString(i) + "/" + "asset");
    StartsWith("results/", key + "/action/" + NatToString(i) + "/" + "mode");
    assert ActionLocator(key, i, "action")[0] == 'r';
    assert ActionLocator(key, i, "asset")[0] == 'r';
    assert ActionLocator(key, i, "mode")[0] == 'r';
  }

  lemma {:induction false} ActionsEventsUnwrapped(key: string, acts: seq<string>, from: nat)
    ensures AllUnwrapped(ActionsEvents(key, acts, from))
    decreases |acts|
  {
    if |acts| > 0 {
      ActionEventsUnwrapped(key, from, acts[0]);
      ActionsEventsUnwrapped(key, acts[1..], from + 1);
      UnwrappedCat(ActionEvents(key, from, acts[0]), ActionsEvents(key, acts[1..], from + 1));
    }
  }

  lemma {:induction false} ResultsEventsUnwrapped(t: ActionTable)
    ensures AllUnwrapped(ResultsEvents(t))
    decreases |t|
  {
    if |t| > 0 {
      ActionsEventsUnwrapped(t[0].0, t[0].1, 0);
      ResultsEventsUnwrapped(t[1..]);
      UnwrappedCat(ActionsEvents(t[0].0, t[0].1, 0), ResultsEvents(t[1..]));
    }
  }

  lemma {:induction false} VariablesEventsUnwrapped(t: Variables)
    ensures AllUnwrapped(VariablesEvents(t))
    decreases |t|
  {
    if |t| > 0 {
      VariablesEventsUnwrapped(t[1..]);
      var e := Event("variables/" + t[0].0, Encode(t[0].1));
      StartsWith("variables/", t[0].0);
      assert AllUnwrapped([e]);
      UnwrappedCat([e], VariablesEvents(t[1..]));
    }
  }

  /** Everything after the three head fields. */
  function TailEvents(r: Rule): seq<Event>
  {
    ListsEvents(r) + ResultsEvents(r.results) + VariablesEvents(r.variables)
    + [Event("evaluation", EncodeNullable(r.evaluation))]
  }

  lemma TailUnwrapped(r: Rule)
    ensures AllUnwrapped(TailEvents(r))
  {
    var m := ListEvents(Metrics, r.metrics, 0);
    var a := ListEvents(Assets, r.assets, 0);
    var o := ListEvents(Models, r.models, 0);
    var g := ListEvents(Groups, r.groups, 0);
    ListEventsUnwrapped(Metrics, r.metrics, 0);
    ListEventsUnwrapped(Assets, r.assets, 0);
    ListEventsUnwrapped(Models, r.models, 0);
    ListEventsUnwrapped(Groups, r.groups, 0);
    UnwrappedCat(m, a);
    UnwrappedCat(m + a, o);
    UnwrappedCat(m + a + o, g);
    ResultsEventsUnwrapped(r.results);
    VariablesEventsUnwrapped(r.variables);
    UnwrappedCat(ListsEvents(r), ResultsEvents(r.results));
    UnwrappedCat(ListsEvents(r) + ResultsEvents(r.results), VariablesEvents(r.variables));
    var e := [Event("evaluation", EncodeNullable(r.evaluation))];
    assert AllUnwrapped(e);
    UnwrappedCat(ListsEvents(r) + ResultsEvents(r.results) + VariablesEvents(r.variables), e);
  }

  lemma DocSplit(r: Rule)
    ensures DocEvents(r) == HeadEvents(r) + TailEvents(r)
  {
  }

  /** Events that are neither `name` nor enveloped leave the name alone. */
  lemma NameFrame(st: ParserState, evs: seq<Event>)
    requires AllUnwrapped(evs)
    ensures Fold(st, evs).rule.name == st.rule.name
  {
    forall i | 0 <= i < |evs|
      ensures Classify(StripEnvelope(evs[i].locator)) != NameField
    {
      NotEnvelope(evs[i].locator);
    }
    ScalarFrameFold(st, evs, NameS);
  }

  /** Reloading a saved rule gives it back its name, whatever the rule: only
      the `name` event sets the name, and the saved document has one, first.
      The agent keys a reloaded rule by this name. */
  lemma ReparseKeepsName(r: Rule)
    ensures Parse(DocEvents(r)).name == r.name
  {
    var head := HeadEvents(r);
    var tail := TailEvents(r);
    assert Fold(Start, head).rule.name == r.name by { HeadPart(r); }
    assert Fold(Fold(Start, head), tail).rule.name == r.name by {
      TailUnwrapped(r);
      NameFrame(Fold(Start, head), tail);
    }
    DocSplit(r);
    FoldAppend(Start, head, tail);
  }

  /** The walk of a document wrapped as the value of `flexible`. */
  function Wrap(evs: seq<Event>): (w: seq<Event>)
    ensures |w| == |evs|
    ensures forall i :: 0 <= i < |evs| ==> w[i] == Event(Envelope + evs[i].locator, evs[i].value)
  {
    seq(|evs|, i requires 0 <= i < |evs| => Event(Envelope + evs[i].locator, evs[i].value))
  }

  /** No locator starts with the envelope. */
  predicate Bare(evs: seq<Event>)
  {
    forall i :: 0 <= i < |evs| ==> !HasPrefix(evs[i].locator, Envelope)
  }

  /** The envelope changes nothing for locators that do not start with it. */
  lemma {:induction false} FoldWrap(st: ParserState, evs: seq<Event>)
    requires Bare(evs)
    ensures Fold(st, Wrap(evs)) == Fold(st, evs)
    decreases |evs|
  {
    if |evs| > 0 {
      EnvelopeTransparent(st, evs[0].locator, evs[0].value);
      assert Wrap(evs)[1..] == Wrap(evs[1..]);
      assert Bare(evs[1..]) by {
        assert forall i :: 0 <= i < |evs| - 1 ==> evs[1..][i] == evs[i + 1];
      }
      FoldWrap(Step(st, evs[0]), evs[1..]);
      FoldCons(st, Wrap(evs));
      FoldCons(st, evs);
    }
  }

  lemma DocBare(r: Rule)
    ensures Bare(DocEvents(r))
  {
    DocSplit(r);
    TailUnwrapped(r);
    var h: seq<Event> := HeadEvents(r);
    var t: seq<Event> := TailEvents(r);
    forall i | 0 <= i < |h| + |t|
      ensures !HasPrefix((h + t)[i].locator, Envelope)
    {
      if i < |h| {
        assert (h + t)[i] == h[i];
        assert h[i].locator[0] != Envelope[0];
      } else {
        assert (h + t)[i] == t[i - |h|];
        assert t[i - |h|].locator[0] != Envelope[0];
      }
    }
  }

  /** A LIST item reads back like the bare document: parsing the walk of
      `{"flexible": <rule_json>}` gives the rule back, normalised. */
  lemma ListItemReadsBack(r: Rule)
    requires WellFormed(r)
    ensures Parse(Wrap(DocEvents(r))) == Normalize(r)
  {
    DocBare(r);
    FoldWrap(Start, DocEvents(r));
    ParseToJson(r);
  }
}
