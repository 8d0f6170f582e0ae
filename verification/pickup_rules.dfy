/** The pickup authorization rules of foodsaving/stores/rules.py, built on the
    predicate engine: four atomic predicates over a pickup snapshot, the four
    rules composed from them, the rule set and the permission gates.

    The current time is a parameter (`now`); the pickup is a snapshot whose
    collectors are a finite set of user ids. The target is `None` when there
    is no pickup to evaluate against. */
module PickupRules {
  import opened Common
  import opened RuleTools

  /** A requesting user; an anonymous user has no id. */
  datatype User = User(id: Option<UserId>)

  /** A pickup date: when it happens, how many collectors it takes (`None` or
      0 meaning unlimited) and who has joined. */
  datatype Pickup = Pickup(date: Time, maxCollectors: Option<int>, collectors: set<UserId>)

  type Target = Option<Pickup>

  type PickupPred = Pred<User, Target>

  const UpcomingMessages := Messages("Pickup is in the future", "Pickup is in the past")
  const FullMessages := Messages("Pickup is full", "Pickup is not full")
  const CollectorMessages := Messages("You are a pickup collector", "You are not a pickup collector")
  const EmptyMessages := Messages("Pickup is empty", "Pickup is not empty")

  // ---------------------------------------------------------------------
  // What the atomic predicates decide about a pickup that exists

  /** Strictly more than one minute ahead of `now`. */
  predicate Upcoming(now: Time, pk: Pickup)
  {
    pk.date > now + Minute
  }

  /** A capacity is set, is not zero, and is reached. */
  predicate Full(pk: Pickup)
  {
    pk.maxCollectors.Some? && pk.maxCollectors.value != 0 && |pk.collectors| >= pk.maxCollectors.value
  }

  predicate Collector(u: User, pk: Pickup)
  {
    u.id.Some? && u.id.value in pk.collectors
  }

  predicate Empty(pk: Pickup)
  {
    |pk.collectors| == 0
  }

  /** Lifts a decision about an existing pickup to the tri-state: no pickup,
      no opinion. */
  function OnPickup(t: Target, decide: Pickup -> bool): Option<bool>
  {
    match t
    case None => None
    case Some(pk) => Some(decide(pk))
  }

  // ---------------------------------------------------------------------
  // The atomic predicates

  function IsPickupUpcoming(now: Time): PickupPred
  {
    Decorate(Function("is_pickup_upcoming", (_: User, t: Target) => OnPickup(t, pk => Upcoming(now, pk))),
             None, Some(UpcomingMessages))
  }

  function IsPickupFull(): PickupPred
  {
    Decorate(Function("is_pickup_full", (_: User, t: Target) => OnPickup(t, Full)), None, Some(FullMessages))
  }

  function IsPickupCollector(): PickupPred
  {
    Decorate(Function("is_pickup_collector", (u: User, t: Target) => OnPickup(t, pk => Collector(u, pk))),
             None, Some(CollectorMessages))
  }

  function IsPickupEmpty(): PickupPred
  {
    Decorate(Function("is_pickup_empty", (_: User, t: Target) => OnPickup(t, Empty)), None, Some(EmptyMessages))
  }

  // ---------------------------------------------------------------------
  // The rules

  function CanDeletePickup(now: Time): PickupPred
  {
    And(IsPickupUpcoming(now), IsPickupEmpty())
  }

  function CanEditPickup(now: Time): PickupPred
  {
    IsPickupUpcoming(now)
  }

  function CanJoinPickup(now: Time): PickupPred
  {
    And(And(IsPickupUpcoming(now), Invert(IsPickupFull())), Invert(IsPickupCollector()))
  }

  function CanLeavePickup(now: Time): PickupPred
  {
    And(IsPickupUpcoming(now), IsPickupCollector())
  }

  /** `pickup_rules`, registered in the source's order. */
  function PickupRuleSet(now: Time): Result<RuleSet<User, Target>, RuleError>
  {
    AddRules(map[], Registrations(now))
  }

  /** The `add_rule` calls that build `pickup_rules`. */
  function Registrations(now: Time): seq<(string, PickupPred)>
  {
    [("delete", CanDeletePickup(now)), ("edit", CanEditPickup(now)),
     ("join", CanJoinPickup(now)), ("leave", CanLeavePickup(now))]
  }

  /** The four permission classes, one per action. */
  datatype PickupAction = Delete | Edit | Join | Leave

  function RuleName(a: PickupAction): string
  {
    match a
    case Delete => "delete"
    case Edit => "edit"
    case Join => "join"
    case Leave => "leave"
  }

  function RuleFor(a: PickupAction, now: Time): PickupPred
  {
    match a
    case Delete => CanDeletePickup(now)
    case Edit => CanEditPickup(now)
    case Join => CanJoinPickup(now)
    case Leave => CanLeavePickup(now)
  }

  /** What each action needs besides the pickup being upcoming. */
  predicate Requirement(a: PickupAction, u: User, pk: Pickup)
  {
    match a
    case Delete => Empty(pk)
    case Edit => true
    case Join => !Full(pk) && !Collector(u, pk)
    case Leave => Collector(u, pk)
  }

  /** The message a refused action is reported with: none without a pickup,
      the past first, then the action's own requirement that failed. */
  function DenialReason(a: PickupAction, now: Time, u: User, t: Target): Option<string>
  {
    if t.None? then None
    else if !Upcoming(now, t.value) then Some("Pickup is in the past")
    else
      match a
      case Delete => Some("Pickup is not empty")
      case Edit => None
      case Join => if Full(t.value) then Some("Pickup is full") else Some("You are a pickup collector")
      case Leave => Some("You are not a pickup collector")
  }

  /** `CanDeletePickup`, `CanEditPickup`, `CanJoinPickup`, `CanLeavePickup`:
      the gate of one action, which refuses with the predicates' message. */
  function PickupPermission(a: PickupAction, now: Time, u: User, t: Target): (r: Permission)
    ensures r.Granted? <==> (t.Some? && Upcoming(now, t.value) && Requirement(a, u, t.value))
    ensures r.Denied? ==> r.message == DenialReason(a, now, u, t)
  {
    DeleteOutcome(now, u, t);
    EditOutcome(now, u, t);
    JoinOutcome(now, u, t);
    LeaveOutcome(now, u, t);
    HasObjectPermission(RuleFor(a, now), u, t)
  }

  // ---------------------------------------------------------------------
  // The atomic predicates: verdicts and messages

  /** Each atom is unknown without a pickup, and each is well messaged. */
  lemma AtomsUnknownWithoutPickup(now: Time, u: User)
    ensures Value(IsPickupUpcoming(now), u, None) == None && Value(IsPickupFull(), u, None) == None
    ensures Value(IsPickupCollector(), u, None) == None && Value(IsPickupEmpty(), u, None) == None
    ensures WellMessaged(IsPickupUpcoming(now)) && WellMessaged(IsPickupFull())
    ensures WellMessaged(IsPickupCollector()) && WellMessaged(IsPickupEmpty())
  {
  }

  /** `is_pickup_upcoming`: later than one minute from now. */
  lemma UpcomingVerdict(now: Time, u: User, pk: Pickup)
    ensures Value(IsPickupUpcoming(now), u, Some(pk)) == Some(pk.date > now + Minute)
    ensures TestWithMessage(IsPickupUpcoming(now), u, Some(pk)) ==
              if pk.date > now + Minute then Verdict(true, None) else Verdict(false, Some("Pickup is in the past"))
  {
    assert WellMessaged(IsPickupUpcoming(now));
    var p := IsPickupUpcoming(now);
    assert p.body.Atom?;
    assert Value(p, u, Some(pk)) == p.body.test(u, Some(pk));
    assert p.body.test(u, Some(pk)) == OnPickup(Some(pk), pk' => Upcoming(now, pk'));
    assert Value(p, u, Some(pk)) == Some(pk.date > now + Minute);
    if pk.date <= now + Minute {
      assert FailReason(IsPickupUpcoming(now), u, Some(pk)) == "Pickup is in the past";
    }
  }

  /** `is_pickup_full`: false when no capacity (or capacity 0) is set,
      otherwise whether the collector count has reached the capacity. */
  lemma FullVerdict(u: User, pk: Pickup)
    ensures pk.maxCollectors == None || pk.maxCollectors == Some(0) ==>
              Value(IsPickupFull(), u, Some(pk)) == Some(false)
    ensures pk.maxCollectors.Some? && pk.maxCollectors.value != 0 ==>
              Value(IsPickupFull(), u, Some(pk)) == Some(|pk.collectors| >= pk.maxCollectors.value)
  {
  }

  /** `is_pickup_collector`: the user's id is among the collectors; an
      anonymous user never is. */
  lemma CollectorVerdict(u: User, pk: Pickup)
    ensures Value(IsPickupCollector(), u, Some(pk)) == Some(u.id.Some? && u.id.value in pk.collectors)
    ensures u.id == None ==> Value(IsPickupCollector(), u, Some(pk)) == Some(false)
  {
    assert Value(IsPickupCollector(), u, Some(pk)) == Some(Collector(u, pk));
  }

  /** `is_pickup_empty`: no collectors at all. */
  lemma EmptyVerdict(u: User, pk: Pickup)
    ensures Value(IsPickupEmpty(), u, Some(pk)) == Some(|pk.collectors| == 0)
  {
  }

  // ---------------------------------------------------------------------
  // The rules: complete outcomes

  /** The atom facts the rule outcomes are read off from. */
  lemma OutcomeFacts(now: Time, u: User, t: Target)
    ensures t.None? ==> Value(IsPickupUpcoming(now), u, t) == None
    ensures t.Some? ==> Value(IsPickupUpcoming(now), u, t) == Some(Upcoming(now, t.value))
    ensures t.Some? ==> Value(IsPickupFull(), u, t) == Some(Full(t.value))
    ensures t.Some? ==> Value(IsPickupCollector(), u, t) == Some(Collector(u, t.value))
    ensures t.Some? ==> Value(IsPickupEmpty(), u, t) == Some(Empty(t.value))
    ensures WellMessaged(IsPickupUpcoming(now)) && WellMessaged(IsPickupFull())
    ensures WellMessaged(IsPickupCollector()) && WellMessaged(IsPickupEmpty())
  {
    AtomsUnknownWithoutPickup(now, u);
    if t.Some? {
      UpcomingVerdict(now, u, t.value);
      FullVerdict(u, t.value);
      CollectorVerdict(u, t.value);
    }
  }

  /** Delete: denied without a pickup (no reason), then because the pickup is
      in the past, then because it is not empty. */
  lemma DeleteOutcome(now: Time, u: User, t: Target)
    ensures TestWithMessage(CanDeletePickup(now), u, t) ==
              if t.None? then Verdict(false, None)
              else if !Upcoming(now, t.value) then Verdict(false, Some("Pickup is in the past"))
              else if !Empty(t.value) then Verdict(false, Some("Pickup is not empty"))
              else Verdict(true, None)
  {
    OutcomeFacts(now, u, t);
    var up, empty := IsPickupUpcoming(now), IsPickupEmpty();
    if t.None? {
      UnknownRecordsNothing(CanDeletePickup(now), u, t, None);
    } else {
      AndTruthTable(up, empty, u, t);
      if Value(CanDeletePickup(now), u, t) == Some(false) {
        AndReason(up, empty, u, t);
      }
    }
  }

  /** Edit: denied without a pickup (no reason), or because it is in the past. */
  lemma EditOutcome(now: Time, u: User, t: Target)
    ensures TestWithMessage(CanEditPickup(now), u, t) ==
              if t.None? then Verdict(false, None)
              else if !Upcoming(now, t.value) then Verdict(false, Some("Pickup is in the past"))
              else Verdict(true, None)
  {
    OutcomeFacts(now, u, t);
    if t.None? {
      UnknownRecordsNothing(CanEditPickup(now), u, t, None);
    }
  }

  /** Join: the first failing conjunct names the reason: past, full (the
      swapped message of the inverted fullness test), already a collector. */
  lemma JoinOutcome(now: Time, u: User, t: Target)
    ensures TestWithMessage(CanJoinPickup(now), u, t) ==
              if t.None? then Verdict(false, None)
              else if !Upcoming(now, t.value) then Verdict(false, Some("Pickup is in the past"))
              else if Full(t.value) then Verdict(false, Some("Pickup is full"))
              else if Collector(u, t.value) then Verdict(false, Some("You are a pickup collector"))
              else Verdict(true, None)
  {
    OutcomeFacts(now, u, t);
    var up, notFull, notCollector := IsPickupUpcoming(now), Invert(IsPickupFull()), Invert(IsPickupCollector());
    var first := And(up, notFull);
    if t.None? {
      UnknownRecordsNothing(CanJoinPickup(now), u, t, None);
    } else {
      InvertNegates(IsPickupFull(), u, t);
      InvertNegates(IsPickupCollector(), u, t);
      AndTruthTable(up, notFull, u, t);
      AndTruthTable(first, notCollector, u, t);
      if Value(first, u, t) == Some(false) {
        AndReason(up, notFull, u, t);
      }
      if Value(CanJoinPickup(now), u, t) == Some(false) {
        AndReason(first, notCollector, u, t);
      }
    }
  }

  /** Leave: denied without a pickup (no reason), for a past pickup, or to a
      user who is not a collector. */
  lemma LeaveOutcome(now: Time, u: User, t: Target)
    ensures TestWithMessage(CanLeavePickup(now), u, t) ==
              if t.None? then Verdict(false, None)
              else if !Upcoming(now, t.value) then Verdict(false, Some("Pickup is in the past"))
              else if !Collector(u, t.value) then Verdict(false, Some("You are not a pickup collector"))
              else Verdict(true, None)
  {
    OutcomeFacts(now, u, t);
    var up, collector := IsPickupUpcoming(now), IsPickupCollector();
    if t.None? {
      UnknownRecordsNothing(CanLeavePickup(now), u, t, None);
    } else {
      AndTruthTable(up, collector, u, t);
      if Value(CanLeavePickup(now), u, t) == Some(false) {
        AndReason(up, collector, u, t);
      }
    }
  }

  // ---------------------------------------------------------------------
  // Consequences

  /** Nobody can both join and leave the same pickup, and whoever may leave
      cannot delete, because the pickup is not empty. */
  lemma JoinLeaveExclusive(now: Time, u: User, t: Target)
    ensures !(TestWithMessage(CanJoinPickup(now), u, t).allowed && TestWithMessage(CanLeavePickup(now), u, t).allowed)
    ensures TestWithMessage(CanLeavePickup(now), u, t).allowed ==>
              TestWithMessage(CanDeletePickup(now), u, t) == Verdict(false, Some("Pickup is not empty"))
  {
    JoinOutcome(now, u, t);
    LeaveOutcome(now, u, t);
    DeleteOutcome(now, u, t);
  }

  /** The four registered names, which differ in their first letter. */
  lemma RegistrationNames(now: Time)
    ensures Names(Registrations(now)) == ["delete", "edit", "join", "leave"]
    ensures Distinct(Names(Registrations(now)))
    ensures (set n | n in Names(Registrations(now))) == {"delete", "edit", "join", "leave"}
  {
    var names := Names(Registrations(now));
    assert names == ["delete", "edit", "join", "leave"];
    forall i, j | 0 <= i < j < |names|
      ensures names[i] != names[j]
    {
      assert names[i][0] != names[j][0];
    }
  }

  /** The rule set registers without error and holds exactly the four rules. */
  lemma PickupRuleSetContents(now: Time)
    ensures PickupRuleSet(now).Ok?
    ensures PickupRuleSet(now).value.Keys == {"delete", "edit", "join", "leave"}
    ensures forall a: PickupAction :: RuleName(a) in PickupRuleSet(now).value &&
              PickupRuleSet(now).value[RuleName(a)] == RuleFor(a, now)
  {
    var rules := Registrations(now);
    RegistrationNames(now);
    AddRulesSucceeds(map[], rules);
    AddRulesContents(map[], rules);
    forall a: PickupAction
      ensures RuleName(a) in PickupRuleSet(now).value && PickupRuleSet(now).value[RuleName(a)] == RuleFor(a, now)
    {
      var i := match a case Delete => 0 case Edit => 1 case Join => 2 case Leave => 3;
      assert rules[i].0 == RuleName(a) && rules[i].1 == RuleFor(a, now);
    }
  }

  /** Each gate and the matching entry of the actions dictionary agree. */
  lemma GatesAgreeWithRuleSet(a: PickupAction, now: Time, u: User, t: Target)
    ensures PickupRuleSet(now).Ok? && RuleName(a) in PickupRuleSet(now).value
    ensures var entry := EntryFor(PickupRuleSet(now).value[RuleName(a)], u, t);
            (PickupPermission(a, now, u, t).Granted? <==> entry.allowed) &&
            (PickupPermission(a, now, u, t).Denied? ==> entry.reason == Present(PickupPermission(a, now, u, t).message))
  {
    PickupRuleSetContents(now);
    GateAgreesWithActions(RuleFor(a, now), u, t);
  }

  /** A pickup that is not upcoming denies every action in the rule set, each
      with the reason "Pickup is in the past". */
  lemma PastPickupDeniesAll(now: Time, u: User, pk: Pickup)
    requires pk.date <= now + Minute
    ensures PickupRuleSet(now).Ok?
    ensures forall name :: name in PickupRuleSet(now).value ==>
              EntryFor(PickupRuleSet(now).value[name], u, Some(pk)) ==
                ActionEntry(false, Present(Some("Pickup is in the past")))
  {
    PickupRuleSetContents(now);
    DeleteOutcome(now, u, Some(pk));
    EditOutcome(now, u, Some(pk));
    JoinOutcome(now, u, Some(pk));
    LeaveOutcome(now, u, Some(pk));
    forall name | name in PickupRuleSet(now).value
      ensures EntryFor(PickupRuleSet(now).value[name], u, Some(pk)) ==
                ActionEntry(false, Present(Some("Pickup is in the past")))
    {
      var a := if name == "delete" then Delete else if name == "edit" then Edit
               else if name == "join" then Join else Leave;
      assert RuleName(a) == name;
    }
  }

  /** Without a pickup every action is denied, with no reason. */
  lemma MissingPickupDeniesAll(now: Time, u: User, a: PickupAction)
    ensures TestWithMessage(RuleFor(a, now), u, None) == Verdict(false, None)
  {
    DeleteOutcome(now, u, None);
    EditOutcome(now, u, None);
    JoinOutcome(now, u, None);
    LeaveOutcome(now, u, None);
  }

  /** An upcoming pickup at capacity refuses a newcomer with "Pickup is full". */
  lemma FullPickupRefusesJoin(now: Time, u: User, pk: Pickup)
    requires Upcoming(now, pk) && pk.maxCollectors.Some? && pk.maxCollectors.value != 0
    requires |pk.collectors| >= pk.maxCollectors.value && !Collector(u, pk)
    ensures TestWithMessage(CanJoinPickup(now), u, Some(pk)) == Verdict(false, Some("Pickup is full"))
  {
    JoinOutcome(now, u, Some(pk));
  }

  /** A pickup ten minutes ahead with no collectors and no limit: delete, edit
      and join are allowed; leave is refused with "You are not a pickup
      collector". */
  lemma OpenPickupScenario(now: Time, u: User)
    ensures var pk := Pickup(now + 10 * Minute, Some(0), {});
            && TestWithMessage(CanDeletePickup(now), u, Some(pk)) == Verdict(true, None)
            && TestWithMessage(CanEditPickup(now), u, Some(pk)) == Verdict(true, None)
            && TestWithMessage(CanJoinPickup(now), u, Some(pk)) == Verdict(true, None)
            && TestWithMessage(CanLeavePickup(now), u, Some(pk)) == Verdict(false, Some("You are not a pickup collector"))
  {
    var pk := Pickup(now + 10 * Minute, Some(0), {});
    DeleteOutcome(now, u, Some(pk));
    EditOutcome(now, u, Some(pk));
    JoinOutcome(now, u, Some(pk));
    LeaveOutcome(now, u, Some(pk));
  }

  /** The only collector of an upcoming pickup may leave it but not delete it. */
  lemma SoleCollectorScenario(now: Time, id: UserId, date: Time, max: Option<int>)
    requires date > now + Minute
    ensures TestWithMessage(CanLeavePickup(now), User(Some(id)), Some(Pickup(date, max, {id}))) == Verdict(true, None)
    ensures TestWithMessage(CanDeletePickup(now), User(Some(id)), Some(Pickup(date, max, {id}))) ==
              Verdict(false, Some("Pickup is not empty"))
  {
    LeaveOutcome(now, User(Some(id)), Some(Pickup(date, max, {id})));
    DeleteOutcome(now, User(Some(id)), Some(Pickup(date, max, {id})));
  }
}
