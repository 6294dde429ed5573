/** The evaluation protocol of rule_evaluate (src/rule.c): what the rule's
    program is called with, and how the two values it leaves on the
    interpreter's stack become a result code and a message. The embedded Lua
    interpreter is not modelled: an Engine, a function from the call to its
    outcome, stands in for compiling and running the program. */
module Evaluation {
  import opened Strings
  import opened Rules

  /** RULE_ERROR, the code for "no result". It is defined in rule.h, which is
      not part of this model; the model fixes it at 255, outside the five
      result codes -2..2, which is all any property here relies on. */
  const RuleError: int := 255

  /** One value left on the interpreter's stack as the C API sees it: a
      number (lua_isnumber holds) with the integer lua_tointeger gives and the
      text lua_tostring gives; a string that is not a number; or anything
      else, for which lua_tostring gives NULL. */
  datatype Value = Number(code: int, text: string) | Text(text: string) | Other

  /** The outcome of one evaluation: the program did not compile, has no
      `main`, or raised an error; or `main` returned and left two values,
      the top one first. */
  datatype Outcome = Failed | Returned(top: Value, below: Value)

  /** What the program runs with: its text, the rule's variables as
      globals, the globals NAME and INAME, and the parameters of `main` in order. */
  datatype Call = Call(program: Option<string>, variables: Variables, name: string, iname: string, params: seq<string>)

  type Engine = Call -> Outcome

  /** lua_tostring: numbers and strings have a text, other values give NULL. */
  function TextOf(v: Value): Option<string>
  {
    match v
    case Number(_, s) => Some(s)
    case Text(s) => Some(s)
    case Other => None
  }

  /** The call rule_evaluate makes: NAME is the display name when there is
      one and the instance name otherwise; INAME is always the instance name. */
  function CallFor(r: Rule, params: seq<string>, iname: string, ename: Option<string>): (c: Call)
    ensures ename.Some? ==> c.name == ename.value
    ensures ename.None? ==> c.name == iname
    ensures c.iname == iname && c.params == params
    ensures c.program == r.evaluation && c.variables == r.variables
  {
    Call(r.evaluation, r.variables, ename.GetOr(iname), iname, params)
  }

  /** How rule_evaluate reads the outcome into (*result, *message): both
      start as RULE_ERROR and NULL; a numeric top value is the code and the
      value beneath it the message; failing that, a numeric value beneath
      is the code and the top value the message. */
  function Interpret(o: Outcome): (r: (int, Option<string>))
    ensures r.1.Some? ==> o.Returned? && (o.top.Number? || o.below.Number?)
    ensures o.Returned? && o.top.Number? ==> r.0 == o.top.code && r.1 == TextOf(o.below)
    ensures o.Returned? && o.below.Number? && !o.top.Number? ==> r.0 == o.below.code && r.1 == TextOf(o.top)
    ensures !(o.Returned? && (o.top.Number? || o.below.Number?)) ==> r == (RuleError, None)
  {
    match o
    case Failed => (RuleError, None)
    case Returned(top, below) =>
      if top.Number? then (top.code, TextOf(below))
      else if below.Number? then (below.code, TextOf(top))
      else (RuleError, None)
  }

  /** rule_evaluate: the engine runs the call, and its outcome is read back.
      A failed run, or one that returns no number, is RULE_ERROR without a
      message. */
  function Evaluate(engine: Engine, r: Rule, params: seq<string>, iname: string, ename: Option<string>): (res: (int, Option<string>))
    ensures var o := engine(CallFor(r, params, iname, ename));
      && (o.Failed? ==> res == (RuleError, None))
      && (o.Returned? && o.top.Number? ==> res == (o.top.code, TextOf(o.below)))
      && (o.Returned? && !o.top.Number? && o.below.Number? ==> res == (o.below.code, TextOf(o.top)))
      && (o.Returned? && !o.top.Number? && !o.below.Number? ==> res == (RuleError, None))
  {
    Interpret(engine(CallFor(r, params, iname, ename)))
  }

  /** When exactly one of the two returned values is a number, the order in
      which the program returned them makes no difference. */
  lemma OrderIrrelevant(a: Value, b: Value)
    requires a.Number? != b.Number?
    ensures Interpret(Returned(a, b)) == Interpret(Returned(b, a))
  {
  }

  /** A number and a text string, in either order, give that code and that message. */
  lemma CodeAndMessage(code: int, num: string, msg: string)
    ensures Interpret(Returned(Number(code, num), Text(msg))) == (code, Some(msg))
    ensures Interpret(Returned(Text(msg), Number(code, num))) == (code, Some(msg))
  {
  }

  /** The result is an actual code (not RULE_ERROR) only when the program
      returned and one of its values is a number. */
  lemma ErrorUnlessNumber(o: Outcome)
    ensures Interpret(o).0 != RuleError ==> o.Returned? && (o.top.Number? || o.below.Number?)
  {
  }
}
