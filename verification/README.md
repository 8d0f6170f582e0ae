# Pickup authorization rules and channel subscription expiry, in Dafny

This project models the authorization core of the foodsaving (karrot)
backend:

- **The message-carrying predicate engine** (`foodsaving/utils/ruletools.py`).
  A predicate answers a question about a (user, target) pair with a tri-state
  verdict: true, false or unknown. It may carry a pair of messages
  (positive, negative). Inverting a predicate negates determinate verdicts,
  keeps unknown, swaps the messages and toggles a leading `~` on the name.
  A message-bearing predicate that answers exactly false records its negative
  message as the pending denial reason. `test_with_message` turns the
  tri-state into `(allowed, reason)`. `_build_actions_dict` evaluates every rule
  of a rule set, the serializer field exposes that dictionary for the
  requesting user, and the permission gate turns a rule into allow/deny with
  the rule's reason.
- **The pickup rules** (`foodsaving/stores/rules.py`). Four atomic predicates
  over a pickup snapshot: upcoming, full, collector, empty. Four rules built
  from them: delete, edit, join, leave. The rule set registers the four rules,
  and there is one permission gate per action.
- **Websocket subscription expiry**
  (`foodsaving/subscriptions/management/commands/cleanup_channel_subscriptions.py`).
  It deletes websocket subscriptions last seen more than five minutes ago.

Files:

- `common.dfy`: `Option`, `Result`, `Time` (integer microseconds) and `Minute`.
- `ruletools.dfy` (module `RuleTools`): the engine.
  - `Pred` is a predicate. Its `Body` is an `Atom` (a test function), a
    `Negation` (built by `Invert`) or a `Conjunction` (built by `And`).
  - `Apply` is `_apply`. The ambient per-call context of the source becomes
    an explicit `pending` reason that is passed in and handed back.
  - `Value` is the message-free reference semantics.
  - `FailReason` is the reference denial reason.
  - The module also holds `TestWithMessage`, the decorator `Decorate`, the rule
    set (`AddRule`, `AddRules`), `BuildActionsDict`, `ToRepresentation` and
    the gate `HasObjectPermission`.
- `pickup_rules.dfy` (module `PickupRules`): a pickup is `Pickup(date,
  maxCollectors, collectors)` with `now` passed in. The target is
  `Option<Pickup>`, and a missing pickup is `None`. Users have an optional id,
  and an anonymous user has none.
- `channel_subscriptions.dfy` (module `ChannelSubscriptions`): the
  subscription record and `Cleanup`, the deletion filter over a sequence of
  records.

Modelling assumptions:

- The `&` operator comes from the external `rules` library, whose code is not
  part of this model. `And` is modelled as left-to-right evaluation that stops
  at a left operand that is not true and then answers with the left operand's
  verdict, so unknown & x is unknown and false & x is false.
  - For the pickup rules this choice is not observable. Either every atom is
    unknown (there is no pickup) or none is. So a semantics that skips unknown
    operands would give the same verdicts and reasons.
  - A more conservative reading would make unknown & false false. The model
    follows the short-circuit reading instead. Both readings become a denial
    at `test_with_message`.
- `RuleSet.add_rule` (library) is modelled as failing with `DuplicateRule` on
  a name that is already registered.
- A predicate built from a function is named by the given name or, when that
  name is missing or empty, by the function's own name. This mirrors the
  library's `name or fn.__name__` default.
- The name `(p & q)` of a compound predicate follows the library's display
  format. No operation of the core reads it.
- On an unknown verdict the source does not make up a generic reason. The
  gate gets whatever message evaluation left pending. That is `None` when
  nothing was recorded (`UnknownRecordsNothing`), which always holds for the
  pickup rules without a pickup. It can also be a stale message: in `~f & u`,
  with `f` false and `u` unknown, the reason is `f`'s negative message
  (`StaleReasonOnUnknown`).
- When toggling the `~` leaves an inverted predicate's name empty, the library
  names it after the inner `INVERT` function, as for any predicate with an
  empty name.
- Without a request, the serializer field returns `None`, not an empty map.

## Model

| member | source | states |
|---|---|---|
| RuleTools.TestWithMessage | foodsaving/utils/ruletools.py:73-85 | allowed iff the reference verdict is exactly true (unknown is coerced to false); no reason when allowed; on a false verdict of a well-messaged predicate the reason is the reference reason `FailReason` |
| RuleTools.TestWithMessageCoercesUnknown | foodsaving/utils/ruletools.py:73-85 | unknown is denied, true gives `(true, None)`, and a denial reports what evaluation from a fresh context left pending |
| RuleTools.ApplyComputesValue | foodsaving/utils/ruletools.py:67-71 | recording messages in the context never changes a verdict: `_apply` agrees with the message-free semantics for any pending reason |
| RuleTools.ApplyReportsFailReason | foodsaving/utils/ruletools.py:67-71 | on a well-messaged predicate a false verdict leaves the negative message of the first failing message-bearing node pending, whatever was pending before |
| RuleTools.RecordsNegativeMessage | foodsaving/utils/ruletools.py:67-71 | a message-bearing predicate answering exactly false records `messages[1]`; an atom answering true or unknown records nothing |
| RuleTools.UnknownRecordsNothing | foodsaving/utils/ruletools.py:67-71 | when the deciding atoms all answer unknown, the verdict is unknown and the pending reason is untouched |
| RuleTools.InvertNegates | foodsaving/utils/ruletools.py:54-57 | inversion maps true to false, false to true, and unknown to unknown (both directions) |
| RuleTools.InvertReportsPositiveMessage | foodsaving/utils/ruletools.py:64-71 | a false verdict of `~p` is reported with `p`'s positive message, because inversion swaps the pair |
| RuleTools.ToggleTildeTwice | foodsaving/utils/ruletools.py:59-62 | toggling the leading `~` twice restores a name exactly when the name does not start with `~~` |
| RuleTools.InvertedNameTwice | foodsaving/utils/ruletools.py:59-65 | inverting twice restores a name exactly when it is not empty, not `~`, and does not start with `~~` (an empty toggled name becomes `INVERT`) |
| RuleTools.StaleReasonOnUnknown | foodsaving/utils/ruletools.py:54-82 | an unknown verdict can be denied with a stale reason: `~f & u` with `f` false and `u` unknown reports `f`'s negative message |
| RuleTools.InvertTwice | foodsaving/utils/ruletools.py:54-65 | double inversion restores the message pair and the verdict; it restores the name iff the name is not empty, not `~` and does not start with `~~`; on a non-true verdict it restores the pending reason |
| RuleTools.InvertTwiceSameVerdict | foodsaving/utils/ruletools.py:54-85 | `test_with_message` gives the same `(allowed, reason)` for `~~p` as for `p` |
| RuleTools.AndTruthTable | foodsaving/stores/rules.py:43-46 | the tri-state truth table of `&` under the short-circuit assumption; on determinate operands it is boolean and |
| RuleTools.AndReason | foodsaving/stores/rules.py:43-46 | a conjunction of well-messaged predicates is well messaged, and its denial reason is that of its first false operand |
| RuleTools.DecorateBuildsAtom | foodsaving/utils/ruletools.py:88-101 | the decorator returns an existing predicate unchanged (ignoring the given messages) and turns a function into an atom that evaluates it, with the given messages and the given name or else the function's name |
| RuleTools.AddRule | foodsaving/stores/rules.py:51-56 | registration fails exactly on a duplicate name; otherwise the old rules are kept and the new name maps to the registered predicate |
| RuleTools.AddRulesSucceeds | foodsaving/stores/rules.py:51-56 | a sequence of registrations succeeds iff its names are distinct and none is already registered |
| RuleTools.AddRulesContents | foodsaving/stores/rules.py:51-56 | after successful registrations the set holds the old rules plus exactly the listed ones, each under its name |
| RuleTools.BuildActionsDict | foodsaving/utils/ruletools.py:24-31 | exactly one entry per rule name; `allowed` iff the rule's verdict is true; the `reason` key is present iff `allowed` is false and holds the rule's reason |
| RuleTools.ToRepresentation | foodsaving/utils/ruletools.py:41-46 | `None` exactly when there is no request; otherwise the actions dictionary for the request's user |
| RuleTools.HasObjectPermission | foodsaving/utils/ruletools.py:12-17 | granted iff the rule's verdict is true; otherwise denied with the rule's reason (the reference reason on a false verdict) |
| RuleTools.GateAgreesWithActions | foodsaving/utils/ruletools.py:12-31 | the gate grants exactly when the actions entry says allowed, and a denial carries the entry's reason |
| PickupRules.AtomsUnknownWithoutPickup | foodsaving/stores/rules.py:10-37 | every atomic pickup predicate is unknown without a pickup, and each carries messages |
| PickupRules.UpcomingVerdict | foodsaving/stores/rules.py:10-14 | upcoming iff the date is strictly later than now + 1 minute; otherwise denied with "Pickup is in the past" |
| PickupRules.FullVerdict | foodsaving/stores/rules.py:17-23 | false when the capacity is unset or 0; otherwise true iff the collector count reaches the capacity |
| PickupRules.CollectorVerdict | foodsaving/stores/rules.py:26-30 | true iff the user's id is among the collectors; an anonymous user is never a collector |
| PickupRules.EmptyVerdict | foodsaving/stores/rules.py:33-37 | true iff there are zero collectors |
| PickupRules.DeleteOutcome | foodsaving/stores/rules.py:43 | delete is allowed iff the pickup exists, is upcoming and is empty; the reason is none without a pickup, else "Pickup is in the past", else "Pickup is not empty" |
| PickupRules.EditOutcome | foodsaving/stores/rules.py:44 | edit is allowed iff the pickup exists and is upcoming, and is otherwise denied with "Pickup is in the past" (no reason without a pickup) |
| PickupRules.JoinOutcome | foodsaving/stores/rules.py:45 | join is allowed iff upcoming, not full and not a collector; the first failing conjunct names the reason: past, "Pickup is full", "You are a pickup collector" |
| PickupRules.LeaveOutcome | foodsaving/stores/rules.py:46 | leave is allowed iff upcoming and a collector; otherwise past or "You are not a pickup collector" |
| PickupRules.JoinLeaveExclusive | foodsaving/stores/rules.py:43-46 | join and leave are never both allowed, and whoever may leave is refused delete with "Pickup is not empty" |
| PickupRules.PickupRuleSetContents | foodsaving/stores/rules.py:51-56 | the rule set registers without error, has exactly the keys delete, edit, join, leave, and maps each to its rule |
| PickupRules.PickupPermission | foodsaving/stores/rules.py:58-64 | each gate grants iff the pickup exists, is upcoming and meets the action's own requirement; a refusal carries the predicates' message: none without a pickup, "Pickup is in the past", then "Pickup is not empty", "Pickup is full", "You are a pickup collector" or "You are not a pickup collector" as the action requires |
| PickupRules.GatesAgreeWithRuleSet | foodsaving/stores/rules.py:51-64 | each gate and the rule set's entry for the same action agree on allowed and on the reason |
| PickupRules.PastPickupDeniesAll | foodsaving/stores/rules.py:43-56 | for a pickup that is not upcoming every entry of the rule set is denied with reason "Pickup is in the past" |
| PickupRules.MissingPickupDeniesAll | foodsaving/stores/rules.py:10-46 | without a pickup every rule is denied with no reason |
| PickupRules.FullPickupRefusesJoin | foodsaving/stores/rules.py:45 | an upcoming pickup at capacity refuses a non-collector with "Pickup is full" |
| PickupRules.OpenPickupScenario | foodsaving/stores/rules.py:43-46 | a pickup ten minutes ahead, empty, unlimited: delete, edit and join allowed; leave refused with "You are not a pickup collector" |
| PickupRules.SoleCollectorScenario | foodsaving/stores/rules.py:43-46 | the sole collector of an upcoming pickup may leave it but is refused delete with "Pickup is not empty" |
| ChannelSubscriptions.Cleanup | foodsaving/subscriptions/management/commands/cleanup_channel_subscriptions.py:11-12 | a row of the input survives iff it is not a websocket row last seen strictly before now minus five minutes; every survivor comes from the input |
| ChannelSubscriptions.CleanupIsSubsequence | foodsaving/subscriptions/management/commands/cleanup_channel_subscriptions.py:12 | the result is a subsequence of the input: survivors unchanged and in order |
| ChannelSubscriptions.CleanupDistributes | foodsaving/subscriptions/management/commands/cleanup_channel_subscriptions.py:12 | each row is judged on its own: cleaning a concatenation is concatenating the cleaned parts |
| ChannelSubscriptions.CleanupKeepsFresh | foodsaving/subscriptions/management/commands/cleanup_channel_subscriptions.py:12 | a table without stale rows is unchanged |
| ChannelSubscriptions.CleanupIdempotent | foodsaving/subscriptions/management/commands/cleanup_channel_subscriptions.py:12 | for a fixed `now`, cleaning twice is cleaning once |
| ChannelSubscriptions.CleanupScenarios | foodsaving/subscriptions/tests/test_cleanup_command.py:16-25 | last seen 3 minutes ago survives, 10 minutes ago is deleted, exactly 5 minutes ago survives (strict comparison), never seen survives |

## Left out

- The `rules` library internals (`Context`, the context stack, `RuleSet`, the `&` and `|` operators) are not part of this model. `And` follows the assumption stated above. `|` is not used by the core and is not modelled.
- The context push and pop of `test_with_message` are not modelled as state. Each call starts from a fresh pending reason, and nothing else is carried between calls, so the pop is implicit.
- `Predicate` options `bind` and the `NO_VALUE` argument dropping are not modelled. Every evaluation takes exactly a user and a target.
- The decorator's string-first call form (`@predicate('name')`, where the name arrives in place of the function) is not modelled separately. It only moves the name into `name`, and `Decorate` takes the name directly.
- RuleTools.Invert: inverting a predicate without messages raises `TypeError` in the source, because it indexes `messages`. The model makes that a precondition and does not model the exception.
- `update_wrapper` and logger calls are left out. They have no effect on verdicts.
- `create_permission_class` builds classes at run time. It becomes the `PickupAction` enumeration and `PickupPermission`.
- DRF's `view.permission_denied` raises an exception, and may raise "not authenticated" first. The model returns `Denied(message)` instead. The translation to an HTTP response is framework code.
- `timezone.now()` and `relativedelta` are replaced by an integer time in microseconds passed as `now`. One minute is exactly 60,000,000.
- ORM queries (`collectors.count()`, `.filter(id=...).exists()`) are replaced by a finite set of collector ids.
- `Cleanup` models the delete query as a filter over a sequence. Row ids, `created_at` and transactions are not modelled.
- The viewsets in `foodsaving/stores/api.py`, the websocket consumers, the migration and the authentication backend are outside the core.
- Concurrency is not modelled: every operation is a pure function of its inputs.
- RuleTools.TestWithMessage: on an unknown verdict the reason is characterised only as what evaluation left pending, not by a reference definition. For predicates whose atoms all answer unknown, `UnknownRecordsNothing` shows it is `None`. Otherwise it can be a stale message recorded by an operand that was later negated, as `StaleReasonOnUnknown` shows for `~f & u`. If an atom without messages answers false after a sibling has recorded a message, that stale message would be reported. All pickup atoms carry messages, so this never happens in the pickup rules.
