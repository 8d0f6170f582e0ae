/** The message-carrying authorization predicate engine of
    foodsaving/utils/ruletools.py.

    A predicate answers a question about a (subject, target) pair with a
    tri-state verdict: `Some(true)`, `Some(false)` or `None` (unknown). It may
    carry a pair of messages; when it answers exactly `false` it records its
    negative message as the pending denial reason. In the source that reason is
    written into an ambient per-call context; here it is threaded explicitly
    through `Apply` as the `pending` argument and result. */
module RuleTools {
  import opened Common

  /** `positive` describes the predicate holding, `negative` is the reason
      reported when it evaluates to exactly false. */
  datatype Messages = Messages(positive: string, negative: string)

  /** A named predicate; `body` says how its verdict is computed. */
  datatype Pred<!S, !T> = Pred(name: string, messages: Option<Messages>, body: Body<S, T>)

  datatype Body<!S, !T> =
    | Atom(test: (S, T) -> Option<bool>)
    | Negation(operand: Pred<S, T>)
    | Conjunction(left: Pred<S, T>, right: Pred<S, T>)

  /** Result of one evaluation: the verdict and the pending denial reason. */
  datatype Eval = Eval(result: Option<bool>, pending: Option<string>)

  /** What `test_with_message` hands back: a definite decision and a reason. */
  datatype Verdict = Verdict(allowed: bool, reason: Option<string>)

  // ---------------------------------------------------------------------
  // Tri-state logic and names

  /** Negation on the tri-state: determinate values flip, unknown stays. */
  function Negate(r: Option<bool>): Option<bool>
  {
    match r
    case None => None
    case Some(b) => Some(!b)
  }

  predicate StartsWithTilde(name: string)
  {
    |name| > 0 && name[0] == '~'
  }

  /** The name of an inverted predicate: a leading `~` is dropped, otherwise one is added. */
  function ToggleTilde(name: string): string
  {
    if StartsWithTilde(name) then name[1..] else "~" + name
  }

  // ---------------------------------------------------------------------
  // Building predicates

  /** What the `predicate` decorator is applied to: a plain test function
      (with its Python `__name__`), or something that already is a predicate. */
  datatype Callable<!S, !T> =
    | Function(fnName: string, fn: (S, T) -> Option<bool>)
    | Wrapped(pred: Pred<S, T>)

  /** The `predicate` decorator. An existing predicate is returned unchanged
      (the given name and messages are dropped); a plain function becomes an
      atom named `name`, or the function's own name when `name` is missing or
      empty. */
  function Decorate<S, T>(c: Callable<S, T>, name: Option<string>, messages: Option<Messages>): Pred<S, T>
  {
    match c
    case Wrapped(p) => p
    case Function(fnName, fn) =>
      var n := if name.Some? && name.value != "" then name.value else fnName;
      Pred(n, messages, Atom(fn))
  }

  /** The name the inverse of a predicate named `name` ends up with: the
      toggled name, or, when toggling leaves it empty, the name of the inner
      `INVERT` function, which the library falls back to for an empty name. */
  function InvertedName(name: string): string
  {
    var n := ToggleTilde(name);
    if n == "" then "INVERT" else n
  }

  /** `~p`: the verdict is negated, the messages are swapped and the name
      toggles its leading `~`. The source indexes the message pair, so a
      predicate without messages cannot be inverted. */
  function Invert<S, T>(p: Pred<S, T>): Pred<S, T>
    requires p.messages.Some?
  {
    var m := p.messages.value;
    Pred(InvertedName(p.name), Some(Messages(m.negative, m.positive)), Negation(p))
  }

  /** `p & q`; the compound carries no messages of its own. */
  function And<S, T>(p: Pred<S, T>, q: Pred<S, T>): Pred<S, T>
  {
    Pred("(" + p.name + " & " + q.name + ")", None, Conjunction(p, q))
  }

  // ---------------------------------------------------------------------
  // Evaluation

  /** `Predicate._apply`: evaluate `p`, then, if the verdict is exactly false
      and `p` carries messages, overwrite the pending reason with the negative
      message. A conjunction evaluates its right operand only when the left one
      is true; otherwise it answers with the left operand's verdict. */
  function Apply<S, T>(p: Pred<S, T>, s: S, t: T, pending: Option<string>): Eval
    decreases p
  {
    var e :=
      match p.body
      case Atom(fn) => Eval(fn(s, t), pending)
      case Negation(q) =>
        var inner := Apply(q, s, t, pending);
        Eval(Negate(inner.result), inner.pending)
      case Conjunction(l, r) =>
        var first := Apply(l, s, t, pending);
        if first.result == Some(true) then Apply(r, s, t, first.pending) else first;
    if e.result == Some(false) && p.messages.Some? then
      Eval(e.result, Some(p.messages.value.negative))
    else
      e
  }

  /** Reference semantics: the verdict of `p`, with no messages involved. */
  function Value<S, T>(p: Pred<S, T>, s: S, t: T): Option<bool>
    decreases p
  {
    match p.body
    case Atom(fn) => fn(s, t)
    case Negation(q) => Negate(Value(q, s, t))
    case Conjunction(l, r) =>
      var a := Value(l, s, t);
      if a == Some(true) then Value(r, s, t) else a
  }

  /** Every node that can decide a verdict of its own (atoms and negations)
      carries messages. */
  predicate WellMessaged<S, T>(p: Pred<S, T>)
    decreases p
  {
    match p.body
    case Atom(_) => p.messages.Some?
    case Negation(q) => p.messages.Some? && WellMessaged(q)
    case Conjunction(l, r) => WellMessaged(l) && WellMessaged(r)
  }

  /** Reference reason for a false verdict: the negative message of the
      outermost message-bearing node on the path that made the verdict false
      (in a conjunction, the first false operand). */
  function FailReason<S, T>(p: Pred<S, T>, s: S, t: T): string
    requires WellMessaged(p) && Value(p, s, t) == Some(false)
    decreases p
  {
    if p.messages.None? && p.body.Conjunction? then
      if Value(p.body.left, s, t) == Some(false) then FailReason(p.body.left, s, t)
      else FailReason(p.body.right, s, t)
    else
      p.messages.value.negative
  }

  /** `test_with_message`: evaluate `p` with a fresh pending reason, coerce an
      unknown verdict to false, and report the pending reason on denial. */
  function TestWithMessage<S, T>(p: Pred<S, T>, s: S, t: T): (v: Verdict)
    ensures v.allowed <==> Value(p, s, t) == Some(true)
    ensures v.allowed ==> v.reason == None
    ensures Value(p, s, t) == Some(false) && WellMessaged(p) ==> v.reason == Some(FailReason(p, s, t))
  {
    ApplyComputesValue(p, s, t, None);
    var e := Apply(p, s, t, None);
    if e.result == Some(true) then Verdict(true, None)
    else if e.result == Some(false) && WellMessaged(p) then
      ApplyReportsFailReason(p, s, t, None);
      Verdict(false, e.pending)
    else Verdict(false, e.pending)
  }

  // ---------------------------------------------------------------------
  // Properties of evaluation

  /** The message side channel never changes a verdict. */
  lemma {:induction false} ApplyComputesValue<S, T>(p: Pred<S, T>, s: S, t: T, pending: Option<string>)
    ensures Apply(p, s, t, pending).result == Value(p, s, t)
    decreases p
  {
    match p.body
    case Atom(_) =>
    case Negation(q) =>
      ApplyComputesValue(q, s, t, pending);
    case Conjunction(l, r) =>
      ApplyComputesValue(l, s, t, pending);
      ApplyComputesValue(r, s, t, Apply(l, s, t, pending).pending);
  }

  /** On a well-messaged predicate a false verdict always leaves the
      reference reason pending, whatever was pending before. */
  lemma {:induction false} ApplyReportsFailReason<S, T>(p: Pred<S, T>, s: S, t: T, pending: Option<string>)
    requires WellMessaged(p) && Value(p, s, t) == Some(false)
    ensures Apply(p, s, t, pending).pending == Some(FailReason(p, s, t))
    decreases p
  {
    ApplyComputesValue(p, s, t, pending);
    if p.messages.None? && p.body.Conjunction? {
      var l, r := p.body.left, p.body.right;
      ApplyComputesValue(l, s, t, pending);
      if Value(l, s, t) == Some(false) {
        ApplyReportsFailReason(l, s, t, pending);
      } else {
        ApplyReportsFailReason(r, s, t, Apply(l, s, t, pending).pending);
      }
    }
  }

  /** Recording: a message-bearing predicate that answers exactly false
      leaves its negative message pending; an atom answering true or unknown
      leaves the pending reason as it was. */
  lemma RecordsNegativeMessage<S, T>(p: Pred<S, T>, s: S, t: T, pending: Option<string>)
    ensures Value(p, s, t) == Some(false) && p.messages.Some? ==>
              Apply(p, s, t, pending).pending == Some(p.messages.value.negative)
    ensures Value(p, s, t) != Some(false) && p.body.Atom? ==>
              Apply(p, s, t, pending).pending == pending
  {
    ApplyComputesValue(p, s, t, pending);
  }

  /** Every atom of `p` answers unknown on this input. */
  predicate AllUnknown<S, T>(p: Pred<S, T>, s: S, t: T)
    decreases p
  {
    match p.body
    case Atom(fn) => fn(s, t) == None
    case Negation(q) => AllUnknown(q, s, t)
    case Conjunction(l, r) => AllUnknown(l, s, t)
  }

  /** When the deciding atoms all answer unknown, the verdict is unknown and
      nothing is recorded. */
  lemma {:induction false} UnknownRecordsNothing<S, T>(p: Pred<S, T>, s: S, t: T, pending: Option<string>)
    requires AllUnknown(p, s, t)
    ensures Apply(p, s, t, pending) == Eval(None, pending)
    decreases p
  {
    match p.body
    case Atom(_) =>
    case Negation(q) =>
      UnknownRecordsNothing(q, s, t, pending);
    case Conjunction(l, r) =>
      UnknownRecordsNothing(l, s, t, pending);
  }

  /** An unknown verdict can still carry a stale reason: in `~f & u`, with `f`
      answering false and `u` unknown, `f` records its negative message before
      `~f` turns true, and `u` records nothing, so the denial reports `f`'s
      negative message although the verdict is unknown. */
  lemma StaleReasonOnUnknown<S, T>(f: Pred<S, T>, u: Pred<S, T>, s: S, t: T)
    requires f.body.Atom? && f.messages.Some? && f.body.test(s, t) == Some(false)
    requires u.body.Atom? && u.body.test(s, t) == None
    ensures Value(And(Invert(f), u), s, t) == None
    ensures TestWithMessage(And(Invert(f), u), s, t) == Verdict(false, Some(f.messages.value.negative))
  {
    var first := Apply(Invert(f), s, t, None);
    assert Apply(f, s, t, None) == Eval(Some(false), Some(f.messages.value.negative));
    assert first == Eval(Some(true), Some(f.messages.value.negative));
    assert Apply(u, s, t, first.pending) == Eval(None, first.pending);
    ApplyComputesValue(And(Invert(f), u), s, t, None);
  }

  /** `test_with_message` on a true verdict yields `(true, None)`; on a false
      or unknown one it yields `false` with whatever reason evaluation left
      pending, starting from none. */
  lemma TestWithMessageCoercesUnknown<S, T>(p: Pred<S, T>, s: S, t: T)
    ensures Value(p, s, t) == None ==> !TestWithMessage(p, s, t).allowed
    ensures Value(p, s, t) == Some(true) ==> TestWithMessage(p, s, t) == Verdict(true, None)
    ensures !TestWithMessage(p, s, t).allowed ==>
              TestWithMessage(p, s, t).reason == Apply(p, s, t, None).pending
  {
  }

  // ---------------------------------------------------------------------
  // Properties of inversion

  /** Inversion maps true to false and back, and passes unknown through. */
  lemma InvertNegates<S, T>(p: Pred<S, T>, s: S, t: T)
    requires p.messages.Some?
    ensures Value(p, s, t) == Some(true) ==> Value(Invert(p), s, t) == Some(false)
    ensures Value(p, s, t) == Some(false) ==> Value(Invert(p), s, t) == Some(true)
    ensures Value(p, s, t) == None <==> Value(Invert(p), s, t) == None
  {
  }

  /** A false verdict of `~p` is reported with `p`'s positive message. */
  lemma InvertReportsPositiveMessage<S, T>(p: Pred<S, T>, s: S, t: T)
    requires p.messages.Some? && Value(p, s, t) == Some(true)
    ensures TestWithMessage(Invert(p), s, t) == Verdict(false, Some(p.messages.value.positive))
  {
    ApplyComputesValue(p, s, t, None);
  }

  /** Toggling the tilde twice restores the name exactly when the name does
      not already start with two tildes. */
  lemma ToggleTildeTwice(name: string)
    ensures ToggleTilde(ToggleTilde(name)) == name <==> !(|name| >= 2 && name[0] == '~' && name[1] == '~')
  {
    if |name| >= 2 && name[0] == '~' && name[1] == '~' {
      assert |ToggleTilde(ToggleTilde(name))| == |name| - 2;
    } else if StartsWithTilde(name) {
      assert ToggleTilde(name) == name[1..];
      assert "~" + name[1..] == name;
    } else {
      assert ("~" + name)[1..] == name;
    }
  }

  /** Inverting twice restores a predicate's name exactly when the name is
      neither empty, nor `~`, nor starts with two tildes: an empty toggled name
      is replaced by `INVERT`. */
  lemma InvertedNameTwice(name: string)
    ensures InvertedName(InvertedName(name)) == name <==>
              !(|name| >= 2 && name[0] == '~' && name[1] == '~') && name != "" && name != "~"
  {
    if name == "" {
      assert ToggleTilde(name) == "~";
      assert ToggleTilde("~") == "";
    } else if name == "~" {
      assert ToggleTilde(name) == "";
      assert InvertedName(name) == "INVERT";
      assert InvertedName("INVERT") == "~INVERT";
    } else if |name| >= 2 && name[0] == '~' && name[1] == '~' {
      assert InvertedName(name) == name[1..];
      var twice := InvertedName(name[1..]);
      if name == "~~" {
        assert twice == "INVERT";
      } else {
        assert twice == name[2..];
        assert |twice| < |name|;
      }
    } else if StartsWithTilde(name) {
      assert InvertedName(name) == name[1..];
      assert !StartsWithTilde(name[1..]);
      assert "~" + name[1..] == name;
    } else {
      assert InvertedName(name) == "~" + name;
      assert ("~" + name)[1..] == name;
    }
  }

  /** Double inversion restores the message order and the verdict, and the
      name exactly when `InvertedNameTwice` says so. When the verdict is not
      true, the pending reason is restored too. */
  lemma InvertTwice<S, T>(p: Pred<S, T>, s: S, t: T, pending: Option<string>)
    requires p.messages.Some?
    ensures Invert(Invert(p)).messages == p.messages
    ensures Invert(Invert(p)).name == p.name <==>
              !(|p.name| >= 2 && p.name[0] == '~' && p.name[1] == '~') && p.name != "" && p.name != "~"
    ensures Value(Invert(Invert(p)), s, t) == Value(p, s, t)
    ensures Apply(p, s, t, pending).result != Some(true) ==>
              Apply(Invert(Invert(p)), s, t, pending) == Apply(p, s, t, pending)
  {
    InvertedNameTwice(p.name);
    ApplyComputesValue(p, s, t, pending);
    ApplyComputesValue(p, s, t, None);
    if Value(p, s, t) == Some(false) {
      RecordsNegativeMessage(p, s, t, pending);
      RecordsNegativeMessage(p, s, t, None);
    }
  }

  /** `test_with_message` cannot tell `~~p` from `p`. */
  lemma InvertTwiceSameVerdict<S, T>(p: Pred<S, T>, s: S, t: T)
    requires p.messages.Some?
    ensures TestWithMessage(Invert(Invert(p)), s, t) == TestWithMessage(p, s, t)
  {
    InvertTwice(p, s, t, None);
  }

  // ---------------------------------------------------------------------
  // Conjunction and the decorator

  /** Truth table of `&`: a non-true left operand decides, a true one defers
      to the right operand; on determinate operands this is boolean and. */
  lemma AndTruthTable<S, T>(p: Pred<S, T>, q: Pred<S, T>, s: S, t: T)
    ensures Value(p, s, t) == Some(false) ==> Value(And(p, q), s, t) == Some(false)
    ensures Value(p, s, t) == None ==> Value(And(p, q), s, t) == None
    ensures Value(p, s, t) == Some(true) ==> Value(And(p, q), s, t) == Value(q, s, t)
    ensures Value(p, s, t).Some? && Value(q, s, t).Some? ==>
              Value(And(p, q), s, t) == Some(Value(p, s, t).value && Value(q, s, t).value)
  {
  }

  /** A conjunction is well messaged exactly when both operands are, and its
      reason is that of the first false operand. */
  lemma AndReason<S, T>(p: Pred<S, T>, q: Pred<S, T>, s: S, t: T)
    requires WellMessaged(p) && WellMessaged(q) && Value(And(p, q), s, t) == Some(false)
    ensures WellMessaged(And(p, q))
    ensures Value(p, s, t) == Some(false) ==> FailReason(And(p, q), s, t) == FailReason(p, s, t)
    ensures Value(p, s, t) == Some(true) ==> FailReason(And(p, q), s, t) == FailReason(q, s, t)
  {
  }

  /** The decorator keeps an existing predicate as it is, and turns a plain
      function into a message-bearing atom that evaluates the function. */
  lemma DecorateBuildsAtom<S, T>(c: Callable<S, T>, name: Option<string>, messages: Option<Messages>, s: S, t: T)
    ensures c.Wrapped? ==> Decorate(c, name, messages) == c.pred
    ensures c.Function? ==> Value(Decorate(c, name, messages), s, t) == c.fn(s, t)
    ensures c.Function? ==> Decorate(c, name, messages).messages == messages
    ensures c.Function? && name.Some? && name.value != "" ==> Decorate(c, name, messages).name == name.value
    ensures c.Function? && (name == None || name == Some("")) ==> Decorate(c, name, messages).name == c.fnName
  {
  }

  // ---------------------------------------------------------------------
  // Rule sets, the actions dictionary, the serializer field, the gate

  /** A rule set maps rule names to predicates. */
  type RuleSet<!S, !T> = map<string, Pred<S, T>>

  datatype RuleError = DuplicateRule(name: string)

  /** `RuleSet.add_rule`: registering a name twice is an error. */
  function AddRule<S, T>(rs: RuleSet<S, T>, name: string, p: Pred<S, T>): (r: Result<RuleSet<S, T>, RuleError>)
    ensures r.Err? <==> name in rs
    ensures r.Err? ==> r.error == DuplicateRule(name)
    ensures r.Ok? ==> r.value.Keys == rs.Keys + {name}
    ensures r.Ok? ==> forall n :: n in rs ==> r.value[n] == rs[n]
    ensures r.Ok? ==> r.value[name] == p
  {
    if name in rs then Err(DuplicateRule(name)) else Ok(rs[name := p])
  }

  /** Registers `rules` in order, stopping at the first duplicate name. */
  function AddRules<S, T>(rs: RuleSet<S, T>, rules: seq<(string, Pred<S, T>)>): Result<RuleSet<S, T>, RuleError>
    decreases |rules|
  {
    if |rules| == 0 then Ok(rs)
    else
      match AddRule(rs, rules[0].0, rules[0].1)
      case Err(e) => Err(e)
      case Ok(rs') => AddRules(rs', rules[1..])
  }

  /** The names of a list of registrations, in order. */
  function Names<S, T>(rules: seq<(string, Pred<S, T>)>): seq<string>
  {
    seq(|rules|, i requires 0 <= i < |rules| => rules[i].0)
  }

  predicate Distinct(names: seq<string>)
  {
    forall i, j :: 0 <= i < j < |names| ==> names[i] != names[j]
  }

  /** Registering a list succeeds exactly when its names are distinct and
      none of them is registered already. */
  lemma {:induction false} AddRulesSucceeds<S, T>(rs: RuleSet<S, T>, rules: seq<(string, Pred<S, T>)>)
    ensures AddRules(rs, rules).Ok? <==>
              Distinct(Names(rules)) && forall n :: n in Names(rules) ==> n !in rs
    decreases |rules|
  {
    if |rules| > 0 {
      var name := rules[0].0;
      var tail := rules[1..];
      assert Names(rules) == [name] + Names(tail);
      if name in rs {
        assert name in Names(rules);
      } else {
        var rs' := rs[name := rules[0].1];
        AddRulesSucceeds(rs', tail);
        if AddRules(rs, rules).Ok? {
          forall i, j | 0 <= i < j < |rules|
            ensures Names(rules)[i] != Names(rules)[j]
          {
            assert Names(rules)[j] == Names(tail)[j - 1];
            if i == 0 {
              assert Names(tail)[j - 1] !in rs';
            } else {
              assert Names(rules)[i] == Names(tail)[i - 1];
            }
          }
        }
        if Distinct(Names(rules)) && forall n :: n in Names(rules) ==> n !in rs {
          forall n | n in Names(tail)
            ensures n !in rs'
          {
            var k :| 0 <= k < |Names(tail)| && Names(tail)[k] == n;
            assert Names(rules)[k + 1] == n && Names(rules)[0] == name;
            assert n in Names(rules);
          }
          assert Distinct(Names(tail)) by {
            forall i, j | 0 <= i < j < |tail|
              ensures Names(tail)[i] != Names(tail)[j]
            {
              assert Names(rules)[i + 1] != Names(rules)[j + 1];
            }
          }
        }
      }
    }
  }

  /** A successful registration keeps the old rules and adds exactly the
      listed ones, each under its own name. */
  lemma {:induction false} AddRulesContents<S, T>(rs: RuleSet<S, T>, rules: seq<(string, Pred<S, T>)>)
    requires AddRules(rs, rules).Ok?
    ensures AddRules(rs, rules).value.Keys == rs.Keys + set n | n in Names(rules)
    ensures forall n :: n in rs ==> AddRules(rs, rules).value[n] == rs[n]
    ensures forall i :: 0 <= i < |rules| ==>
              rules[i].0 in AddRules(rs, rules).value && AddRules(rs, rules).value[rules[i].0] == rules[i].1
    decreases |rules|
  {
    if |rules| > 0 {
      var name := rules[0].0;
      var tail := rules[1..];
      var rs' := rs[name := rules[0].1];
      assert Names(rules) == [name] + Names(tail);
      AddRulesContents(rs', tail);
      assert (set n | n in Names(rules)) == {name} + set n | n in Names(tail);
      forall i | 0 < i < |rules|
        ensures rules[i].0 in AddRules(rs, rules).value && AddRules(rs, rules).value[rules[i].0] == rules[i].1
      {
        assert tail[i - 1] == rules[i];
      }
    }
  }

  /** Key presence in a serialized dictionary. */
  datatype Field<+X> = Absent | Present(value: X)

  /** One entry of the actions dictionary: `{'allowed': ..., 'reason': ...}`;
      the reason key itself may hold `None`. */
  datatype ActionEntry = ActionEntry(allowed: bool, reason: Field<Option<string>>)

  /** The entry `_build_actions_dict` stores for one rule. */
  function EntryFor<S, T>(p: Pred<S, T>, s: S, t: T): ActionEntry
  {
    var v := TestWithMessage(p, s, t);
    if v.allowed then ActionEntry(true, Absent) else ActionEntry(false, Present(v.reason))
  }

  /** `_build_actions_dict`: every rule of the set is evaluated on its own. */
  method BuildActionsDict<S, T>(rs: RuleSet<S, T>, s: S, t: T) returns (actions: map<string, ActionEntry>)
    ensures actions.Keys == rs.Keys
    ensures forall name :: name in rs ==> actions[name] == EntryFor(rs[name], s, t)
    ensures forall name :: name in rs ==> (actions[name].allowed <==> Value(rs[name], s, t) == Some(true))
    ensures forall name :: name in actions ==> (actions[name].reason.Present? <==> !actions[name].allowed)
  {
    actions := map[];
    var todo := rs.Keys;
    while todo != {}
      invariant todo <= rs.Keys
      invariant actions.Keys == rs.Keys - todo
      invariant forall name :: name in actions ==> actions[name] == EntryFor(rs[name], s, t)
      decreases todo
    {
      var name :| name in todo;
      var v := TestWithMessage(rs[name], s, t);
      if v.allowed {
        actions := actions[name := ActionEntry(true, Absent)];
      } else {
        actions := actions[name := ActionEntry(false, Present(v.reason))];
      }
      todo := todo - {name};
    }
  }

  /** The part of a serializer context the field reads: the request's user. */
  datatype Request<S> = Request(user: S)

  /** `RulesetSerializerField.to_representation`: no request, no value;
      otherwise the actions dictionary for the requesting user. */
  method ToRepresentation<S, T>(rs: RuleSet<S, T>, request: Option<Request<S>>, value: T)
    returns (r: Option<map<string, ActionEntry>>)
    ensures r.None? <==> request.None?
    ensures r.Some? ==> r.value.Keys == rs.Keys
    ensures r.Some? ==> forall name :: name in rs ==> r.value[name] == EntryFor(rs[name], request.value.user, value)
  {
    if request.None? {
      return None;
    }
    var actions := BuildActionsDict(rs, request.value.user, value);
    return Some(actions);
  }

  /** Outcome of a permission gate: pass, or deny with the rule's reason. */
  datatype Permission = Granted | Denied(message: Option<string>)

  /** `RulePermissionBase.has_object_permission`. */
  function HasObjectPermission<S, T>(rule: Pred<S, T>, user: S, target: T): (r: Permission)
    ensures r.Granted? <==> Value(rule, user, target) == Some(true)
    ensures r.Denied? && Value(rule, user, target) == Some(false) && WellMessaged(rule) ==>
              r.message == Some(FailReason(rule, user, target))
  {
    var v := TestWithMessage(rule, user, target);
    if v.allowed then Granted else Denied(v.reason)
  }

  /** The gate and the actions dictionary never disagree: a rule is granted
      exactly when its entry says allowed, and a denial carries the entry's
      reason. */
  lemma GateAgreesWithActions<S, T>(rule: Pred<S, T>, user: S, target: T)
    ensures HasObjectPermission(rule, user, target).Granted? <==> EntryFor(rule, user, target).allowed
    ensures HasObjectPermission(rule, user, target).Denied? ==>
              EntryFor(rule, user, target).reason == Present(HasObjectPermission(rule, user, target).message)
  {
  }
}
