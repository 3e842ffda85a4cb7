/**
  Configuration updates of several management handlers side by side. The update
  mutex belongs to one handler and a management reload makes a new one
  (internal/httpapi/handler.go, internal/app/management.go), so updates of
  different handlers interleave; the planes' transition locks and the manager's
  revision tests are all that orders them.
 */
module Handlers {
  import opened Common
  import opened Settings
  import opened ConfigManager
  import opened Reload

  datatype Plane = ManagementPort | TrafficPort | UdpPort

  /** What one plane takes from a configuration. */
  datatype Part =
    | ManagementPart(address: Setting, auth: Auth)
    | TrafficPart(address: Setting, cors: Setting)
    | UdpPart(udp: Udp)

  function PartOf(cfg: Config, plane: Plane): Part {
    match plane
    case ManagementPort => ManagementPart(Get(cfg, ManagementListen), AuthOf(cfg))
    case TrafficPort => TrafficPart(Get(cfg, TrafficListen), Get(cfg, CorsEnabled))
    case UdpPort => UdpPart(UdpOf(cfg))
  }

  predicate Changed(current: Config, next: Config, plane: Plane) {
    PartOf(current, plane) != PartOf(next, plane)
  }

  /** A plane sees a change exactly when the configurations disagree about one of its fields. */
  lemma ChangedExactly(current: Config, next: Config, plane: Plane)
    ensures Changed(current, next, plane) <==>
      match plane
      case ManagementPort => exists f :: f in MANAGEMENT_FIELDS && Differ(current, next, f)
      case TrafficPort => exists f :: f in TRAFFIC_FIELDS && Differ(current, next, f)
      case UdpPort => TurnedOn(current) != TurnedOn(next) || exists f :: f in UDP_FIELDS && Differ(current, next, f)
  {
    ChangedFields(current, next);
    hide Differ;
  }

  /** The order planes are prepared in. */
  function Nth(i: nat): Plane {
    if i == 0 then ManagementPort else if i == 1 then TrafficPort else UdpPort
  }

  function Number(plane: Plane): nat {
    match plane
    case ManagementPort => 0
    case TrafficPort => 1
    case UdpPort => 2
  }

  /**
    Where a handler's update is: it has read the configuration, at revision `at`;
    it is preparing planes, `asked` of them so far; or it has committed and
    activates. `held` are the planes whose transition lock its plans hold.
   */
  datatype Update =
    | Idle
    | Started(request: Request, current: Config, at: nat)
    | Preparing(p: Prepared, current: Config, at: nat, asked: nat, held: set<Plane>)
    | Activating(next: Config, held: set<Plane>)

  /**
    `planes` is what each plane serves with, `locks` who holds each transition
    lock. Handlers are numbered as they are made, so `made` is the next one's
    number; a request that an old handler got before it was replaced goes on there.
   */
  datatype Service = Service(
    config: ConfigManager.State,
    planes: map<Plane, Part>,
    locks: map<Plane, nat>,
    made: nat,
    updates: map<nat, Update>)

  datatype Step =
    | Read(handler: nat, request: Request)
    | PrepareConfig(handler: nat)
    | AskPlane(handler: nat, agrees: bool)
    | CommitConfig(handler: nat, written: bool)
    | Activate(handler: nat)

  function UpdateOf(s: Service, handler: nat): Update {
    if handler in s.updates then s.updates[handler] else Idle
  }

  predicate Enabled(s: Service, step: Step) {
    var u := UpdateOf(s, step.handler);
    match step
    case Read(h, _) => h < s.made && u.Idle?
    case PrepareConfig(_) => u.Started?
    case AskPlane(_, _) =>
      && u.Preparing? && u.asked < 3
      && (Changed(u.current, u.p.effective, Nth(u.asked)) ==> Nth(u.asked) !in s.locks)
    case CommitConfig(_, _) => u.Preparing? && u.asked == 3
    case Activate(_) => u.Activating?
  }

  /** An update that stops releases the locks of its plans. */
  function Stopped(s: Service, handler: nat, held: set<Plane>): Service {
    s.(locks := s.locks - held, updates := s.updates[handler := Idle])
  }

  /** UDP first, then traffic, then management. */
  function First(held: set<Plane>): Plane {
    if UdpPort in held then UdpPort else if TrafficPort in held then TrafficPort else ManagementPort
  }

  /** What a plane serves with once activated: the management plane's new handler reads the login settings afresh. */
  function Activated(next: Config, effective: Config, plane: Plane): Part {
    if plane.ManagementPort? then ManagementPart(Get(next, ManagementListen), AuthOf(effective)) else PartOf(next, plane)
  }

  /** The update's configuration is in force, and its planes are to be activated. */
  function CommittedBy(s: Service, handler: nat): Service
    requires UpdateOf(s, handler).Preparing?
  {
    var u := UpdateOf(s, handler);
    s.(config := Committed(s.config, u.p, true), updates := s.updates[handler := Activating(u.p.effective, u.held)])
  }

  ghost function Next(rules: Rules, lower: Config, s: Service, step: Step): Service
    requires Enabled(s, step)
  {
    var h := step.handler;
    var u := UpdateOf(s, h);
    match step
    case Read(_, request) => s.(updates := s.updates[h := Started(request, s.config.effective, s.config.revision)])
    case PrepareConfig(_) =>
      (match PreparedFrom(rules, lower, s.config, u.request)
       case None => Stopped(s, h, {})
       case Some(p) => s.(updates := s.updates[h := Preparing(p, u.current, u.at, 0, {})]))
    case AskPlane(_, agrees) =>
      var plane := Nth(u.asked);
      if !Changed(u.current, u.p.effective, plane) then s.(updates := s.updates[h := u.(asked := u.asked + 1)])
      else if agrees then
        s.(locks := s.locks[plane := h], updates := s.updates[h := u.(asked := u.asked + 1, held := u.held + {plane})])
      else Stopped(s, h, u.held)
    case CommitConfig(_, written) =>
      if u.p.expected == s.config.revision && written
      then CommittedBy(s, h)
      else Stopped(s, h, u.held)
    case Activate(_) =>
      if u.held == {} then s.(updates := s.updates[h := Idle])
      else
        var plane := First(u.held);
        s.(planes := s.planes[plane := Activated(u.next, s.config.effective, plane)],
           locks := s.locks - {plane},
           made := if plane.ManagementPort? then s.made + 1 else s.made,
           updates := s.updates[h := Activating(u.next, u.held - {plane})])
  }

  /** What a step leaves alone: the configuration, what the planes serve with, the locks and the handlers there are. */
  ghost predicate SameService(s: Service, t: Service) {
    t.config == s.config && t.planes == s.planes && t.locks == s.locks && t.made == s.made
  }

  /** The update is over, and no lock is held for it. */
  ghost predicate GivesUp(s: Service, h: nat, held: set<Plane>, t: Service) {
    && t.config == s.config && t.planes == s.planes && t.made == s.made && UpdateOf(t, h).Idle?
    && (forall plane :: plane in t.locks <==> plane in s.locks && plane !in held)
    && (forall plane :: plane in t.locks ==> t.locks[plane] == s.locks[plane])
  }

  /** The plane has been switched, field by field, and its lock is free. */
  ghost predicate IsSwitched(s: Service, next: Config, plane: Plane, t: Service) {
    && t.config == s.config && t.locks == s.locks - {plane} && t.planes.Keys == s.planes.Keys + {plane}
    && (forall other :: other in s.planes && other != plane ==> t.planes[other] == s.planes[other])
    && t.made == (if plane.ManagementPort? then s.made + 1 else s.made)
    && match plane
       case ManagementPort =>
         var effective := s.config.effective;
         t.planes[plane] == ManagementPart(Get(next, ManagementListen),
                                           Auth(Get(effective, Username), Get(effective, Password), Get(effective, SessionTtl)))
       case TrafficPort => t.planes[plane] == TrafficPart(Get(next, TrafficListen), Get(next, CorsEnabled))
       case UdpPort =>
         && (forall cfg :: t.planes[plane] == PartOf(cfg, UdpPort)
               <==> TurnedOn(cfg) == TurnedOn(next) && forall f :: f in UDP_FIELDS ==> !Differ(cfg, next, f))
  }

  /** What a handler's next step does, and that no other handler's update is touched. */
  ghost predicate Does(rules: Rules, lower: Config, s: Service, step: Step, t: Service) {
    var h := step.handler;
    var u := UpdateOf(s, h);
    && (forall g :: g != h ==> UpdateOf(t, g) == UpdateOf(s, g))
    && match step
       case Read(_, request) =>
         SameService(s, t) && UpdateOf(t, h) == Started(request, s.config.effective, s.config.revision)
       case PrepareConfig(_) =>
         && SameService(s, t) && u.Started?
         && (forall p :: ConfigManager.Prepares(rules, lower, s.config, u.request, p) ==>
               UpdateOf(t, h) == Preparing(p, u.current, u.at, 0, {}))
         && ((forall p :: !ConfigManager.Prepares(rules, lower, s.config, u.request, p)) ==> UpdateOf(t, h).Idle?)
       case AskPlane(_, agrees) =>
         && u.Preparing? && u.asked < 3
         && var plane := [ManagementPort, TrafficPort, UdpPort][u.asked];
            if !Changed(u.current, u.p.effective, plane) then
              SameService(s, t) && UpdateOf(t, h) == Preparing(u.p, u.current, u.at, u.asked + 1, u.held)
            else if agrees then
              && t.config == s.config && t.planes == s.planes && t.made == s.made && t.locks == s.locks[plane := h]
              && UpdateOf(t, h) == Preparing(u.p, u.current, u.at, u.asked + 1, u.held + {plane})
            else GivesUp(s, h, u.held, t)
       case CommitConfig(_, written) =>
         && u.Preparing?
         && if written && u.p.expected == s.config.revision then
              && t.config == ConfigManager.State(u.p.effective, u.p.overrides, s.config.revision + 1, u.p.overrides)
              && t.planes == s.planes && t.locks == s.locks && t.made == s.made
              && UpdateOf(t, h) == Activating(u.p.effective, u.held)
            else GivesUp(s, h, u.held, t)
       case Activate(_) =>
         && u.Activating?
         && if u.held == {} then SameService(s, t) && UpdateOf(t, h).Idle?
            else exists plane :: plane in u.held
                   && (plane.TrafficPort? ==> UdpPort !in u.held) && (plane.ManagementPort? ==> u.held == {ManagementPort})
                   && IsSwitched(s, u.next, plane, t) && UpdateOf(t, h) == Activating(u.next, u.held - {plane})
  }

  lemma PrepareDoes(rules: Rules, lower: Config, s: Service, h: nat)
    requires Enabled(s, PrepareConfig(h))
    ensures Does(rules, lower, s, PrepareConfig(h), Next(rules, lower, s, PrepareConfig(h)))
  {
    var u := UpdateOf(s, h);
    forall p ensures PreparedFrom(rules, lower, s.config, u.request) == Some(p)
                <==> ConfigManager.Prepares(rules, lower, s.config, u.request, p) {
      PreparesExactly(rules, lower, s.config, u.request, p);
    }
    hide ConfigManager.Prepares, PreparedFrom;
    assert s.locks - {} == s.locks;
  }

  lemma ActivateDoes(rules: Rules, lower: Config, s: Service, h: nat)
    requires Enabled(s, Activate(h))
    ensures Does(rules, lower, s, Activate(h), Next(rules, lower, s, Activate(h)))
  {
    var u := UpdateOf(s, h);
    if u.held != {} {
      var plane := First(u.held);
      forall p | p in u.held ensures p in {ManagementPort, TrafficPort, UdpPort} {
        PlaneIsOne(p);
      }
      forall cfg ensures PartOf(u.next, UdpPort) == PartOf(cfg, UdpPort)
          <==> TurnedOn(cfg) == TurnedOn(u.next) && forall f :: f in UDP_FIELDS ==> !Differ(cfg, u.next, f) {
        ChangedExactly(cfg, u.next, UdpPort);
      }
      hide Differ, UdpOf, TurnedOn;
      assert plane in u.held && IsSwitched(s, u.next, plane, Next(rules, lower, s, Activate(h)));
    }
  }

  lemma StopDoes(s: Service, h: nat, held: set<Plane>)
    ensures GivesUp(s, h, held, Stopped(s, h, held))
    ensures forall g :: g != h ==> UpdateOf(Stopped(s, h, held), g) == UpdateOf(s, g)
  {
  }

  lemma AskDoes(rules: Rules, lower: Config, s: Service, h: nat, agrees: bool)
    requires Enabled(s, AskPlane(h, agrees))
    ensures Does(rules, lower, s, AskPlane(h, agrees), Next(rules, lower, s, AskPlane(h, agrees)))
  {
    StopDoes(s, h, UpdateOf(s, h).held);
    hide IsSwitched, GivesUp, Changed, Stopped, PreparedFrom, ConfigManager.Prepares;
  }

  lemma CommitDoes(rules: Rules, lower: Config, s: Service, h: nat, written: bool)
    requires Enabled(s, CommitConfig(h, written))
    ensures Does(rules, lower, s, CommitConfig(h, written), Next(rules, lower, s, CommitConfig(h, written)))
  {
    StopDoes(s, h, UpdateOf(s, h).held);
    hide IsSwitched, GivesUp, Changed, Stopped, PreparedFrom, ConfigManager.Prepares;
  }

  lemma StepsExactly(rules: Rules, lower: Config, s: Service, step: Step)
    requires Enabled(s, step)
    ensures Does(rules, lower, s, step, Next(rules, lower, s, step))
  {
    match step
    case Read(_, _) => hide IsSwitched, GivesUp, Changed, PreparedFrom, ConfigManager.Prepares;
    case PrepareConfig(h) =>
      PrepareDoes(rules, lower, s, h);
      hide *;
    case AskPlane(h, agrees) =>
      AskDoes(rules, lower, s, h, agrees);
      hide *;
    case CommitConfig(h, written) =>
      CommitDoes(rules, lower, s, h, written);
      hide *;
    case Activate(h) =>
      ActivateDoes(rules, lower, s, h);
      hide *;
  }

  // ------------------------------------------------------------------
  // What every step keeps
  // ------------------------------------------------------------------

  function Held(u: Update): set<Plane> {
    if u.Preparing? || u.Activating? then u.held else {}
  }

  /** The locks are held by exactly the plans there are. */
  ghost predicate LocksInv(s: Service) {
    && (forall plane :: plane in s.locks ==> plane in Held(UpdateOf(s, s.locks[plane])))
    && (forall h, plane :: plane in Held(UpdateOf(s, h)) ==> plane in s.locks && s.locks[plane] == h)
  }

  /** What a handler has read is current while its revision is, and its plans are for the planes it has asked about. */
  predicate UpdateInv(config: ConfigManager.State, u: Update) {
    match u
    case Started(_, current, at) => at <= config.revision && (at == config.revision ==> current == config.effective)
    case Preparing(p, current, at, asked, held) =>
      && at <= config.revision && (at == config.revision ==> current == config.effective)
      && asked <= 3
      && (forall plane: Plane :: plane in held <==> Number(plane) < asked && Changed(current, p.effective, plane))
    case _ => true
  }

  /** The plane is to be switched by a committed update. */
  predicate Owed(s: Service, plane: Plane) {
    plane in s.locks && UpdateOf(s, s.locks[plane]).Activating?
  }

  /** A plane serves with the effective configuration, or is about to be switched to it. */
  predicate Follows(s: Service, plane: Plane) {
    if Owed(s, plane)
    then PartOf(UpdateOf(s, s.locks[plane]).next, plane) == PartOf(s.config.effective, plane)
    else plane in s.planes && s.planes[plane] == PartOf(s.config.effective, plane)
  }

  /** What holds whether or not the handlers' comparisons are any good. */
  ghost predicate Base(s: Service) {
    LocksInv(s) && forall h :: UpdateInv(s.config, UpdateOf(s, h))
  }

  ghost predicate AllFollow(s: Service) {
    forall plane: Plane :: Follows(s, plane)
  }

  /** What all steps but commits do. */
  ghost predicate Keeps(s: Service, t: Service) {
    Base(t) && (AllFollow(s) ==> AllFollow(t))
  }

  lemma OthersStay(s: Service, t: Service, h: nat, u: Update)
    requires t.updates == s.updates[h := u]
    ensures forall g :: UpdateOf(t, g) == if g == h then u else UpdateOf(s, g)
  {
  }

  /** One handler's plans change to `held`, and the locks with them. */
  lemma LocksMoveOn(s: Service, t: Service, h: nat, u: Update)
    requires LocksInv(s) && t.updates == s.updates[h := u]
    requires forall plane :: plane in t.locks <==> plane in Held(u) || (plane in s.locks && s.locks[plane] != h)
    requires forall plane :: plane in t.locks ==> t.locks[plane] == if plane in Held(u) then h else s.locks[plane]
    requires forall plane :: plane in Held(u) && plane in s.locks ==> s.locks[plane] == h
    ensures LocksInv(t)
  {
    OthersStay(s, t, h, u);
    forall g, plane | plane in Held(UpdateOf(t, g)) ensures plane in t.locks && t.locks[plane] == g {
      if g != h {
        assert plane in Held(UpdateOf(s, g)) && s.locks[plane] == g;
      }
    }
  }

  lemma PlaneIsOne(plane: Plane)
    ensures plane in {ManagementPort, TrafficPort, UdpPort}
  {
    match plane
    case ManagementPort =>
    case TrafficPort =>
    case UdpPort =>
  }

  /** A handler moves on without touching configuration, planes or locks. */
  lemma MovesOn(s: Service, h: nat, u: Update)
    requires Base(s) && UpdateInv(s.config, u)
    requires !UpdateOf(s, h).Activating? && !u.Activating? && Held(u) == Held(UpdateOf(s, h))
    ensures Keeps(s, s.(updates := s.updates[h := u]))
  {
    var t := s.(updates := s.updates[h := u]);
    OthersStay(s, t, h, u);
    LocksMoveOn(s, t, h, u);
    forall plane: Plane ensures Follows(s, plane) ==> Follows(t, plane) {
    }
    forall g ensures UpdateInv(t.config, UpdateOf(t, g)) {
      assert UpdateInv(s.config, UpdateOf(s, g));
    }
  }

  lemma StopKeepsBase(s: Service, h: nat)
    requires Base(s) && !UpdateOf(s, h).Activating?
    ensures Keeps(s, Stopped(s, h, Held(UpdateOf(s, h))))
  {
    var t := Stopped(s, h, Held(UpdateOf(s, h)));
    OthersStay(s, t, h, Idle);
    LocksMoveOn(s, t, h, Idle);
    forall plane: Plane ensures Follows(s, plane) ==> Follows(t, plane) {
    }
    forall g ensures UpdateInv(t.config, UpdateOf(t, g)) {
      assert UpdateInv(s.config, UpdateOf(s, g));
    }
  }

  lemma AskKeepsBase(rules: Rules, lower: Config, s: Service, h: nat, agrees: bool)
    requires Base(s) && Enabled(s, AskPlane(h, agrees))
    ensures Keeps(s, Next(rules, lower, s, AskPlane(h, agrees)))
  {
    var u := UpdateOf(s, h);
    var plane := Nth(u.asked);
    assert UpdateInv(s.config, u);
    if !Changed(u.current, u.p.effective, plane) {
      MovesOn(s, h, u.(asked := u.asked + 1));
    } else if agrees {
      PlanGrows(s.config, u, plane);
      LockKeepsBase(s, h, plane);
    } else {
      StopKeepsBase(s, h);
    }
  }

  function Planned(u: Update, plane: Plane): Update
    requires u.Preparing?
  {
    u.(asked := u.asked + 1, held := u.held + {plane})
  }

  lemma PlanGrows(config: ConfigManager.State, u: Update, plane: Plane)
    requires u.Preparing? && UpdateInv(config, u) && u.asked < 3
    requires plane == Nth(u.asked) && Changed(u.current, u.p.effective, plane)
    ensures UpdateInv(config, Planned(u, plane))
  {
    forall other: Plane
      ensures other in Planned(u, plane).held
              <==> Number(other) < u.asked + 1 && Changed(u.current, u.p.effective, other)
    {
      assert other in u.held <==> Number(other) < u.asked && Changed(u.current, u.p.effective, other);
    }
  }

  lemma LockKeepsBase(s: Service, h: nat, plane: Plane)
    requires Base(s) && UpdateOf(s, h).Preparing? && plane !in s.locks
    requires UpdateInv(s.config, Planned(UpdateOf(s, h), plane))
    ensures Keeps(s, s.(locks := s.locks[plane := h], updates := s.updates[h := Planned(UpdateOf(s, h), plane)]))
  {
    hide UpdateInv;
    var u' := Planned(UpdateOf(s, h), plane);
    var t := s.(locks := s.locks[plane := h], updates := s.updates[h := u']);
    OthersStay(s, t, h, u');
    LocksMoveOn(s, t, h, u');
    forall g ensures UpdateInv(t.config, UpdateOf(t, g)) {
      assert UpdateInv(s.config, UpdateOf(s, g));
    }
    forall other: Plane ensures Follows(s, other) ==> Follows(t, other) {
    }
  }

  /** Comparing with `seen` gives a plan for every plane that `next` changes. */
  ghost predicate MissesNothing(seen: Config, actual: Config, next: Config) {
    forall plane: Plane :: Changed(actual, next, plane) ==> Changed(seen, next, plane)
  }

  lemma CommitKeepsBase(s: Service, h: nat)
    requires Base(s) && UpdateOf(s, h).Preparing?
    requires UpdateOf(s, h).p.expected == s.config.revision
    ensures Base(CommittedBy(s, h))
  {
    var u := UpdateOf(s, h);
    var t := CommittedBy(s, h);
    OthersStay(s, t, h, Activating(u.p.effective, u.held));
    LocksMoveOn(s, t, h, Activating(u.p.effective, u.held));
    forall g ensures UpdateInv(t.config, UpdateOf(t, g)) {
      assert UpdateInv(s.config, UpdateOf(s, g));
    }
  }

  /**
    A commit leaves every plane right, or about to be, exactly when the handler
    has a plan for every plane whose settings its commit changes.
   */
  lemma CommitFollowsExactly(s: Service, h: nat)
    requires Base(s) && AllFollow(s) && UpdateOf(s, h).Preparing? && UpdateOf(s, h).asked == 3
    requires UpdateOf(s, h).p.expected == s.config.revision
    ensures var u := UpdateOf(s, h);
            AllFollow(CommittedBy(s, h))
            <==> forall plane: Plane :: Changed(s.config.effective, u.p.effective, plane) ==> plane in u.held
  {
    var u := UpdateOf(s, h);
    var t := CommittedBy(s, h);
    OthersStay(s, t, h, Activating(u.p.effective, u.held));
    forall plane: Plane
      ensures Follows(t, plane) <==> (Changed(s.config.effective, u.p.effective, plane) ==> plane in u.held)
    {
      assert Follows(s, plane);
      assert plane in u.held ==> plane in s.locks && s.locks[plane] == h;
    }
  }

  /** The plans are for the planes that differ from what the handler read. */
  lemma HeldIsSeen(s: Service, h: nat)
    requires Base(s) && UpdateOf(s, h).Preparing? && UpdateOf(s, h).asked == 3
    ensures var u := UpdateOf(s, h);
            MissesNothing(u.current, s.config.effective, u.p.effective)
            <==> forall plane: Plane :: Changed(s.config.effective, u.p.effective, plane) ==> plane in u.held
  {
    var u := UpdateOf(s, h);
    assert UpdateInv(s.config, u);
    forall plane: Plane ensures plane in u.held <==> Changed(u.current, u.p.effective, plane) {
      assert Number(plane) < 3;
    }
  }

  /** The last plan is activated. */
  lemma FinishKeepsBase(s: Service, h: nat)
    requires Base(s) && UpdateOf(s, h).Activating? && UpdateOf(s, h).held == {}
    ensures Keeps(s, s.(updates := s.updates[h := Idle]))
  {
    var t := s.(updates := s.updates[h := Idle]);
    OthersStay(s, t, h, Idle);
    LocksMoveOn(s, t, h, Idle);
    forall g ensures UpdateInv(t.config, UpdateOf(t, g)) {
      assert UpdateInv(s.config, UpdateOf(s, g));
    }
    forall plane: Plane ensures Follows(s, plane) ==> Follows(t, plane) {
    }
  }

  function SwitchedBy(s: Service, h: nat, plane: Plane, made: nat): Service
    requires UpdateOf(s, h).Activating?
  {
    var u := UpdateOf(s, h);
    s.(planes := s.planes[plane := Activated(u.next, s.config.effective, plane)], locks := s.locks - {plane},
       made := made, updates := s.updates[h := Activating(u.next, u.held - {plane})])
  }

  lemma SwitchKeepsBase(s: Service, h: nat, plane: Plane, made: nat)
    requires Base(s) && UpdateOf(s, h).Activating? && plane in UpdateOf(s, h).held
    ensures Base(SwitchedBy(s, h, plane, made))
  {
    var u := UpdateOf(s, h);
    var t := SwitchedBy(s, h, plane, made);
    assert plane in s.locks && s.locks[plane] == h;
    OthersStay(s, t, h, Activating(u.next, u.held - {plane}));
    LocksMoveOn(s, t, h, Activating(u.next, u.held - {plane}));
    forall g ensures UpdateInv(t.config, UpdateOf(t, g)) {
      assert UpdateInv(s.config, UpdateOf(s, g));
    }
  }

  lemma SwitchFollows(s: Service, h: nat, plane: Plane, made: nat)
    requires Base(s) && AllFollow(s) && UpdateOf(s, h).Activating? && plane in UpdateOf(s, h).held
    ensures AllFollow(SwitchedBy(s, h, plane, made))
  {
    hide UpdateInv;
    var u := UpdateOf(s, h);
    var t := SwitchedBy(s, h, plane, made);
    assert plane in s.locks && s.locks[plane] == h;
    OthersStay(s, t, h, Activating(u.next, u.held - {plane}));
    forall other: Plane ensures Follows(t, other) {
      assert Follows(s, other);
    }
  }

  lemma ActivateKeepsBase(rules: Rules, lower: Config, s: Service, h: nat)
    requires Base(s) && Enabled(s, Activate(h))
    ensures Keeps(s, Next(rules, lower, s, Activate(h)))
  {
    var u := UpdateOf(s, h);
    hide Base, AllFollow;
    if u.held == {} {
      FinishKeepsBase(s, h);
    } else {
      var first := First(u.held);
      assert first in u.held by {
        var plane :| plane in u.held;
        PlaneIsOne(plane);
      }
      var made := if first.ManagementPort? then s.made + 1 else s.made;
      SwitchKeepsBase(s, h, first, made);
      if AllFollow(s) {
        SwitchFollows(s, h, first, made);
      }
    }
  }

  /** Does this step put a configuration into force? */
  predicate Commits(s: Service, step: Step)
    requires Enabled(s, step)
  {
    step.CommitConfig? && step.written && UpdateOf(s, step.handler).p.expected == s.config.revision
  }

  /** A commit misses no plane that it changes. */
  ghost predicate Right(s: Service, step: Step)
    requires Enabled(s, step)
  {
    Commits(s, step) ==>
      var u := UpdateOf(s, step.handler);
      MissesNothing(u.current, s.config.effective, u.p.effective)
  }

  /** Any step of any handler: planes that follow go on following, unless a commit misses one. */
  lemma StepFollowsExactly(rules: Rules, lower: Config, s: Service, step: Step)
    requires Base(s) && Enabled(s, step)
    ensures Base(Next(rules, lower, s, step))
    ensures AllFollow(s) ==> (AllFollow(Next(rules, lower, s, step)) <==> Right(s, step))
  {
    hide AllFollow, Base, MissesNothing;
    var h := step.handler;
    match step
    case Read(_, request) => ReadKeepsBase(s, h, request);
    case PrepareConfig(_) => PrepareKeepsBase(rules, lower, s, h);
    case AskPlane(_, agrees) => AskKeepsBase(rules, lower, s, h, agrees);
    case CommitConfig(_, written) =>
      if Commits(s, step) {
        CommitKeepsBase(s, h);
        if AllFollow(s) {
          CommitFollowsExactly(s, h);
          HeldIsSeen(s, h);
        }
      } else {
        StopKeepsBase(s, h);
      }
    case Activate(_) => ActivateKeepsBase(rules, lower, s, h);
  }

  lemma ReadKeepsBase(s: Service, h: nat, request: Request)
    requires Base(s) && UpdateOf(s, h).Idle?
    ensures Keeps(s, s.(updates := s.updates[h := Started(request, s.config.effective, s.config.revision)]))
  {
    MovesOn(s, h, Started(request, s.config.effective, s.config.revision));
  }

  lemma PrepareKeepsBase(rules: Rules, lower: Config, s: Service, h: nat)
    requires Base(s) && Enabled(s, PrepareConfig(h))
    ensures Keeps(s, Next(rules, lower, s, PrepareConfig(h)))
  {
    var u := UpdateOf(s, h);
    assert UpdateInv(s.config, u);
    var p := PreparedFrom(rules, lower, s.config, u.request);
    if p.Some? {
      MovesOn(s, h, Preparing(p.value, u.current, u.at, 0, {}));
    } else {
      StopKeepsBase(s, h);
    }
  }

  // ------------------------------------------------------------------
  // Whole runs
  // ------------------------------------------------------------------

  ghost predicate CanRun(rules: Rules, lower: Config, s: Service, steps: seq<Step>)
    decreases |steps|
  {
    steps == [] || (Enabled(s, steps[0]) && CanRun(rules, lower, Next(rules, lower, s, steps[0]), steps[1..]))
  }

  ghost function After(rules: Rules, lower: Config, s: Service, steps: seq<Step>): Service
    requires CanRun(rules, lower, s, steps)
    decreases |steps|
  {
    if steps == [] then s else After(rules, lower, Next(rules, lower, s, steps[0]), steps[1..])
  }

  /** Every successful commit of the run misses nothing. */
  ghost predicate AllRight(rules: Rules, lower: Config, s: Service, steps: seq<Step>)
    requires CanRun(rules, lower, s, steps)
    decreases |steps|
  {
    steps == [] || (Right(s, steps[0]) && AllRight(rules, lower, Next(rules, lower, s, steps[0]), steps[1..]))
  }

  /** After every prefix of the run every plane serves with the effective configuration or is about to. */
  ghost predicate FollowThroughout(rules: Rules, lower: Config, s: Service, steps: seq<Step>)
    requires CanRun(rules, lower, s, steps)
    decreases |steps|
  {
    AllFollow(s) && (steps == [] || FollowThroughout(rules, lower, Next(rules, lower, s, steps[0]), steps[1..]))
  }

  lemma {:induction false} RunFollowsExactly(rules: Rules, lower: Config, s: Service, steps: seq<Step>)
    requires Base(s) && AllFollow(s) && CanRun(rules, lower, s, steps)
    ensures FollowThroughout(rules, lower, s, steps) <==> AllRight(rules, lower, s, steps)
    decreases |steps|
  {
    if steps != [] {
      StepFollowsExactly(rules, lower, s, steps[0]);
      if Right(s, steps[0]) {
        RunFollowsExactly(rules, lower, Next(rules, lower, s, steps[0]), steps[1..]);
      } else {
        assert !FollowThroughout(rules, lower, Next(rules, lower, s, steps[0]), steps[1..]);
      }
    }
  }

  /** The state right after startup: every plane serves with the effective configuration. */
  function Booted(config: ConfigManager.State): Service {
    Service(config, map plane: Plane | plane in {ManagementPort, TrafficPort, UdpPort} :: PartOf(config.effective, plane),
            map[], 1, map[])
  }

  lemma BootedFollows(config: ConfigManager.State)
    ensures Base(Booted(config)) && AllFollow(Booted(config))
  {
    forall plane: Plane ensures Follows(Booted(config), plane) {
      PlaneIsOne(plane);
    }
  }

  /**
    However the updates of any number of handlers interleave: every plane serves
    with the effective configuration, or is about to be switched to it, after
    every prefix of the run, exactly when no successful commit changes a plane
    that its handler saw no change for.
   */
  lemma PlanesFollowExactly(rules: Rules, lower: Config, config: ConfigManager.State, steps: seq<Step>)
    requires CanRun(rules, lower, Booted(config), steps)
    ensures FollowThroughout(rules, lower, Booted(config), steps) <==> AllRight(rules, lower, Booted(config), steps)
  {
    BootedFollows(config);
    RunFollowsExactly(rules, lower, Booted(config), steps);
  }

  // ------------------------------------------------------------------
  // Commits on the revision that was read
  // ------------------------------------------------------------------

  ghost predicate Quiet(s: Service) {
    forall h :: h in s.updates ==> !s.updates[h].Activating?
  }

  /** The handler compared with the configuration its request is based on. */
  predicate IsFresh(s: Service, step: Step)
    requires Enabled(s, step)
  {
    Commits(s, step) ==> UpdateOf(s, step.handler).at == UpdateOf(s, step.handler).p.expected
  }

  ghost predicate AllFresh(rules: Rules, lower: Config, s: Service, steps: seq<Step>)
    requires CanRun(rules, lower, s, steps)
    decreases |steps|
  {
    steps == [] || (IsFresh(s, steps[0]) && AllFresh(rules, lower, Next(rules, lower, s, steps[0]), steps[1..]))
  }

  /**
    A configuration read earlier is good for every update exactly while no
    plane's settings have changed since: otherwise the update that brings the
    settings read back is one that misses a plane.
   */
  lemma StaleReadIsGoodExactly(seen: Config, actual: Config)
    ensures (forall next :: MissesNothing(seen, actual, next))
            <==> forall plane: Plane :: PartOf(seen, plane) == PartOf(actual, plane)
  {
    if exists plane: Plane :: PartOf(seen, plane) != PartOf(actual, plane) {
      var plane: Plane :| PartOf(seen, plane) != PartOf(actual, plane);
      assert Changed(actual, seen, plane) && !Changed(seen, seen, plane);
      assert !MissesNothing(seen, actual, seen);
    }
  }

  lemma {:induction false} FreshRunIsRight(rules: Rules, lower: Config, s: Service, steps: seq<Step>)
    requires Base(s) && AllFollow(s) && CanRun(rules, lower, s, steps) && AllFresh(rules, lower, s, steps)
    ensures AllFollow(After(rules, lower, s, steps))
    decreases |steps|
  {
    if steps != [] {
      if Commits(s, steps[0]) {
        var u := UpdateOf(s, steps[0].handler);
        assert UpdateInv(s.config, u);
        StaleReadIsGoodExactly(u.current, s.config.effective);
      }
      StepFollowsExactly(rules, lower, s, steps[0]);
      FreshRunIsRight(rules, lower, Next(rules, lower, s, steps[0]), steps[1..]);
    }
  }

  /**
    In particular, as long as each handler commits on the revision it read its
    comparison from, every plane serves with the effective configuration whenever
    no activation is under way.
   */
  lemma FreshUpdatesFollow(rules: Rules, lower: Config, config: ConfigManager.State, steps: seq<Step>)
    requires CanRun(rules, lower, Booted(config), steps) && AllFresh(rules, lower, Booted(config), steps)
    requires Quiet(After(rules, lower, Booted(config), steps))
    ensures var s := After(rules, lower, Booted(config), steps);
            forall plane: Plane :: plane in s.planes && s.planes[plane] == PartOf(s.config.effective, plane)
  {
    BootedFollows(config);
    FreshRunIsRight(rules, lower, Booted(config), steps);
    var s := After(rules, lower, Booted(config), steps);
    forall plane: Plane ensures plane in s.planes && s.planes[plane] == PartOf(s.config.effective, plane) {
      assert Follows(s, plane);
    }
  }

  // ------------------------------------------------------------------
  // Two handlers that miss a plane
  // ------------------------------------------------------------------

  /** The configuration at startup: a session lasts twelve hours, and CORS is off. */
  function Lower(): Config {
    map[SessionTtl := Text("12h"), CorsEnabled := Text("off")]
  }

  /** With the session lifetime changed, which is a management setting. */
  function Cors(value: string): Config {
    map[SessionTtl := Text("24h"), CorsEnabled := Text(value)]
  }

  function Turn(expected: nat, value: string): Request {
    Request(expected, map[CorsEnabled := Option.Some(value)], [])
  }

  function Turned(value: string): map<Field, Node> {
    map[SessionTtl := "24h", CorsEnabled := value]
  }

  function Configured(revision: nat, value: string): ConfigManager.State {
    var overrides := if revision == 2 then map[SessionTtl := "24h"] else Turned(value);
    ConfigManager.State(Cors(value), overrides, revision, overrides)
  }

  function Boot(): ConfigManager.State {
    ConfigManager.State(Lower(), map[], 1, map[])
  }

  function LongerSessions(): Request {
    Request(1, map[SessionTtl := Option.Some("24h")], [])
  }

  function Longer(): Prepared {
    Prepared(1, map[SessionTtl := "24h"], Cors("off"))
  }

  lemma TurnedApplies(value: string)
    ensures Apply(PlainRules(), Lower(), Turned(value)) == Option.Some(Cors(value))
  {
    PlainApply(Lower(), Turned(value));
    assert Apply(PlainRules(), Lower(), Turned(value)).value == Cors(value);
  }

  lemma TurnIsPrepared(revision: nat, before: string, after: string)
    ensures PreparedFrom(PlainRules(), Lower(), Configured(revision, before), Turn(revision, after))
         == Option.Some(Prepared(revision, Turned(after), Cors(after)))
  {
    var s := Configured(revision, before);
    assert Edited(s.overrides, Turn(revision, after)) == Turned(after);
    TurnedApplies(after);
    hide Apply, Lower, Cors, Turned;
  }

  lemma LongerIsPrepared()
    ensures PreparedFrom(PlainRules(), Lower(), Boot(), LongerSessions()) == Option.Some(Longer())
  {
    var edited := Edited(map[], LongerSessions());
    assert edited == map[SessionTtl := "24h"];
    PlainApply(Lower(), edited);
    assert Apply(PlainRules(), Lower(), edited).value == Cors("off");
  }

  /** Only the traffic plane sees a change of the CORS flag. */
  lemma CorsParts(a: string, b: string, plane: Plane)
    ensures Changed(Cors(a), Cors(b), plane) <==> plane.TrafficPort? && a != b
  {
    assert Get(Cors(a), CorsEnabled) == Get(Cors(b), CorsEnabled) <==> a == b by {
      assert Cors(a)[CorsEnabled] == Text(a) && Cors(b)[CorsEnabled] == Text(b);
    }
  }

  /** Only the management plane sees the change of the session lifetime. */
  lemma SessionParts(plane: Plane)
    ensures Changed(Lower(), Cors("off"), plane) <==> plane.ManagementPort?
  {
    assert Lower()[SessionTtl] == Text("12h") && Cors("off")[SessionTtl] == Text("24h");
    assert "12h"[0] != "24h"[0];
  }

  /** What matters of a service with handlers 0 and 1: `traffic` is what the traffic plane serves with. */
  datatype View = View(config: ConfigManager.State, traffic: Part, locks: map<Plane, nat>, made: nat, zero: Update, one: Update)

  predicate Shows(s: Service, v: View) {
    && s.config == v.config && s.locks == v.locks && s.made == v.made
    && TrafficPort in s.planes && s.planes[TrafficPort] == v.traffic
    && s.updates.Keys <= {0, 1} && UpdateOf(s, 0) == v.zero && UpdateOf(s, 1) == v.one
  }

  function At(v: View, h: nat): Update {
    if h == 0 then v.zero else v.one
  }

  function Put(v: View, h: nat, u: Update): View {
    if h == 0 then v.(zero := u) else v.(one := u)
  }

  ghost predicate Runs(s: Service, steps: seq<Step>, t: Service) {
    CanRun(PlainRules(), Lower(), s, steps) && After(PlainRules(), Lower(), s, steps) == t
  }

  /**
    Handler 0, the only one, changes a management setting, which makes handler 1
    and revision 2. A request that handler 0 got before it was replaced then reads
    the configuration with CORS off; it expects revision 3. Handler 1 turns CORS
    on, which makes revision 3. Handler 0 goes on: its request is current by now,
    but what it compares with is not, so it sees no change and makes no plan. In
    the end the configuration has CORS off, nothing is under way, and the traffic
    plane serves with CORS on.
   */
  lemma TwoHandlersMiss()
    ensures exists steps, end :: Runs(Booted(Boot()), steps, end) && Missed(end)
  {
    CorsParts("on", "off", TrafficPort);
    var start, late := Booted(Boot()), Started(Turn(3, "off"), Cors("off"), 2);
    hide Reaches, PartOf, Booted, Boot, Turn;
    ReloadMakesHandler();
    Reads(start, View(Configured(2, "off"), PartOf(Lower(), TrafficPort), map[], 2, Idle, Idle), 0, Turn(3, "off"));
    OneTurnsOn(start, late);
    ZeroTurnsOff(start, late);
    EndIsWrong(start);
  }

  /** CORS is configured off at revision 4 and nothing is under way, but the traffic plane serves with it on. */
  ghost predicate Missed(end: Service) {
    && Quiet(end) && end.config.revision == 4 && end.config.effective == Cors("off") && TrafficPort in end.planes
    && end.planes[TrafficPort] == PartOf(Cors("on"), TrafficPort) != PartOf(Cors("off"), TrafficPort)
  }

  // The run, one kind of step at a time.

  lemma {:induction false} Joined(s: Service, a: seq<Step>, t: Service, b: seq<Step>, u: Service)
    requires Runs(s, a, t) && Runs(t, b, u)
    ensures Runs(s, a + b, u)
    decreases |a|
  {
    if a == [] {
      assert a + b == b;
    } else {
      assert (a + b)[1..] == a[1..] + b;
      Joined(Next(PlainRules(), Lower(), s, a[0]), a[1..], t, b, u);
    }
  }

  /** A run goes on with one step. */
  lemma Goes(start: Service, before: seq<Step>, s: Service, step: Step) returns (steps: seq<Step>)
    requires Runs(start, before, s) && Enabled(s, step)
    ensures Runs(start, steps, Next(PlainRules(), Lower(), s, step))
  {
    var t := Next(PlainRules(), Lower(), s, step);
    assert [step][1..] == [] && CanRun(PlainRules(), Lower(), t, []);
    assert CanRun(PlainRules(), Lower(), s, [step]) && After(PlainRules(), Lower(), t, []) == t;
    Joined(start, before, s, [step], t);
    steps := before + [step];
  }

  /** Some run leads to a service that shows `v`. */
  ghost predicate Reaches(start: Service, v: View) {
    exists steps, s :: Runs(start, steps, s) && Shows(s, v)
  }

  lemma Arrives(start: Service, steps: seq<Step>, s: Service, v: View)
    requires Runs(start, steps, s) && Shows(s, v)
    ensures Reaches(start, v)
  {
  }

  function LocksOf(held: set<Plane>, h: nat): map<Plane, nat> {
    map plane | plane in held :: h
  }

  lemma Reads(start: Service, v: View, h: nat, request: Request)
    requires Reaches(start, v) && h <= 1 && h < v.made && At(v, h).Idle?
    ensures Reaches(start, Put(v, h, Started(request, v.config.effective, v.config.revision)))
  {
    var before, s :| Runs(start, before, s) && Shows(s, v);
    hide Runs, Reaches;
    var steps := Goes(start, before, s, Read(h, request));
    Arrives(start, steps, Next(PlainRules(), Lower(), s, Read(h, request)),
                 Put(v, h, Started(request, v.config.effective, v.config.revision)));
  }

  lemma Prepares(start: Service, v: View, h: nat, p: Prepared)
    requires Reaches(start, v) && h <= 1 && At(v, h).Started?
    requires PreparedFrom(PlainRules(), Lower(), v.config, At(v, h).request) == Option.Some(p)
    ensures Reaches(start, Put(v, h, Preparing(p, At(v, h).current, At(v, h).at, 0, {})))
  {
    var before, s :| Runs(start, before, s) && Shows(s, v);
    hide Runs, Reaches;
    var steps := Goes(start, before, s, PrepareConfig(h));
    Arrives(start, steps, Next(PlainRules(), Lower(), s, PrepareConfig(h)),
                 Put(v, h, Preparing(p, At(v, h).current, At(v, h).at, 0, {})));
  }

  /** The next plane is asked, if the handler sees a change for it. */
  function AskedOnce(v: View, h: nat): View
    requires At(v, h).Preparing?
  {
    var u := At(v, h);
    var plane := Nth(u.asked);
    if !Changed(u.current, u.p.effective, plane) then Put(v, h, u.(asked := u.asked + 1))
    else Put(v, h, Planned(u, plane)).(locks := v.locks[plane := h])
  }

  lemma AskShows(s: Service, v: View, h: nat)
    requires Shows(s, v) && h <= 1 && At(v, h).Preparing? && At(v, h).asked < 3 && Nth(At(v, h).asked) !in v.locks
    ensures Shows(Next(PlainRules(), Lower(), s, AskPlane(h, true)), AskedOnce(v, h))
  {
    hide Changed;
  }

  lemma Asks(start: Service, v: View, h: nat)
    requires Reaches(start, v) && h <= 1 && At(v, h).Preparing? && At(v, h).asked < 3
    requires Nth(At(v, h).asked) !in v.locks
    ensures Reaches(start, AskedOnce(v, h))
  {
    var before, s :| Runs(start, before, s) && Shows(s, v);
    AskShows(s, v, h);
    hide Runs, Reaches, Changed, AskedOnce, Shows, Next;
    assert UpdateOf(s, h) == At(v, h) && s.locks == v.locks;
    var steps := Goes(start, before, s, AskPlane(h, true));
    Arrives(start, steps, Next(PlainRules(), Lower(), s, AskPlane(h, true)), AskedOnce(v, h));
  }

  /** After `n` questions the handler has plans for those of the planes `held` that come first. */
  function AskedSoFar(v: View, h: nat, held: set<Plane>, n: nat): View
    requires At(v, h).Preparing?
  {
    var some := set plane | plane in held && Number(plane) < n;
    Put(v, h, At(v, h).(asked := n, held := some)).(locks := LocksOf(some, h))
  }

  lemma AsksOne(v: View, h: nat, held: set<Plane>, n: nat)
    requires At(v, h).Preparing? && n < 3
    requires forall plane: Plane :: Changed(At(v, h).current, At(v, h).p.effective, plane) <==> plane in held
    ensures AskedOnce(AskedSoFar(v, h, held, n), h) == AskedSoFar(v, h, held, n + 1)
  {
    hide Changed;
    var before := set plane | plane in held && Number(plane) < n;
    var after := set plane | plane in held && Number(plane) < n + 1;
    assert after == if Nth(n) in held then before + {Nth(n)} else before;
    var locks := LocksOf(before, h);
    assert LocksOf(after, h) == if Nth(n) in held then locks[Nth(n) := h] else locks;
  }

  /** All planes are asked. */
  lemma AsksAll(start: Service, v: View, h: nat, held: set<Plane>)
    requires Reaches(start, v) && h <= 1 && v.locks == map[]
    requires At(v, h).Preparing? && At(v, h).asked == 0 && At(v, h).held == {}
    requires forall plane: Plane :: Changed(At(v, h).current, At(v, h).p.effective, plane) <==> plane in held
    ensures Reaches(start, Put(v, h, At(v, h).(asked := 3, held := held)).(locks := LocksOf(held, h)))
  {
    hide Reaches, Changed, AskedOnce;
    AsksOne(v, h, held, 0);
    AsksOne(v, h, held, 1);
    AsksOne(v, h, held, 2);
    assert AskedSoFar(v, h, held, 0) == v;
    Asks(start, v, h);
    Asks(start, AskedSoFar(v, h, held, 1), h);
    Asks(start, AskedSoFar(v, h, held, 2), h);
    assert (set plane | plane in held && Number(plane) < 3) == held;
  }

  lemma CommitsNow(start: Service, v: View, h: nat)
    requires Reaches(start, v) && h <= 1 && At(v, h).Preparing? && At(v, h).asked == 3
    requires At(v, h).p.expected == v.config.revision
    ensures var u := At(v, h);
            Reaches(start, Put(v, h, Activating(u.p.effective, u.held)).(config := Committed(v.config, u.p, true)))
  {
    var u := At(v, h);
    var before, s :| Runs(start, before, s) && Shows(s, v);
    hide Runs, Reaches;
    var steps := Goes(start, before, s, CommitConfig(h, true));
    Arrives(start, steps, Next(PlainRules(), Lower(), s, CommitConfig(h, true)),
                 Put(v, h, Activating(u.p.effective, u.held)).(config := Committed(v.config, u.p, true)));
  }

  /** The one plane a plan is for is switched. */
  function Switched(v: View, h: nat, plane: Plane): View
    requires At(v, h).Activating?
  {
    Put(v, h, Activating(At(v, h).next, {})).(
      locks := v.locks - {plane},
      made := if plane.ManagementPort? then v.made + 1 else v.made,
      traffic := if plane.TrafficPort? then PartOf(At(v, h).next, plane) else v.traffic)
  }

  lemma SwitchShows(s: Service, v: View, h: nat, plane: Plane)
    requires Shows(s, v) && h <= 1 && At(v, h).Activating? && At(v, h).held == {plane}
    ensures Shows(Next(PlainRules(), Lower(), s, Activate(h)), Switched(v, h, plane))
  {
    hide PartOf;
    assert First({plane}) == plane;
  }

  lemma Switches(start: Service, v: View, h: nat, plane: Plane)
    requires Reaches(start, v) && h <= 1 && At(v, h).Activating? && At(v, h).held == {plane}
    ensures Reaches(start, Switched(v, h, plane))
  {
    var before, s :| Runs(start, before, s) && Shows(s, v);
    SwitchShows(s, v, h, plane);
    assert UpdateOf(s, h) == At(v, h);
    hide Runs, Reaches, PartOf, Shows, Next, Switched;
    var steps := Goes(start, before, s, Activate(h));
    Arrives(start, steps, Next(PlainRules(), Lower(), s, Activate(h)), Switched(v, h, plane));
  }

  lemma Finishes(start: Service, v: View, h: nat)
    requires Reaches(start, v) && h <= 1 && At(v, h).Activating? && At(v, h).held == {}
    ensures Reaches(start, Put(v, h, Idle))
  {
    var before, s :| Runs(start, before, s) && Shows(s, v);
    hide Runs, Reaches;
    var steps := Goes(start, before, s, Activate(h));
    Arrives(start, steps, Next(PlainRules(), Lower(), s, Activate(h)), Put(v, h, Idle));
  }

  function Updated(v: View, p: Prepared, plane: Plane): View {
    v.(config := Committed(v.config, p, true),
       made := if plane.ManagementPort? then v.made + 1 else v.made,
       traffic := if plane.TrafficPort? then PartOf(p.effective, plane) else v.traffic)
  }

  /** A whole update of one plane, with nothing in between. */
  lemma Updates(start: Service, v: View, h: nat, request: Request, p: Prepared, plane: Plane)
    requires Reaches(start, v) && h <= 1 && h < v.made && At(v, h).Idle? && v.locks == map[]
    requires PreparedFrom(PlainRules(), Lower(), v.config, request) == Option.Some(p) && p.expected == v.config.revision
    requires forall other: Plane :: Changed(v.config.effective, p.effective, other) <==> other in {plane}
    ensures Reaches(start, Updated(v, p, plane))
  {
    hide Reaches, Changed, PartOf, PreparedFrom, Committed;
    Reads(start, v, h, request);
    var w := Put(v, h, Started(request, v.config.effective, v.config.revision));
    Prepares(start, w, h, p);
    w := Put(v, h, Preparing(p, v.config.effective, v.config.revision, 0, {}));
    AsksAll(start, w, h, {plane});
    w := Put(v, h, At(w, h).(asked := 3, held := {plane})).(locks := LocksOf({plane}, h));
    CommitsNow(start, w, h);
    w := Put(w, h, Activating(p.effective, {plane})).(config := Committed(v.config, p, true));
    Switches(start, w, h, plane);
    assert Switched(w, h, plane).locks == map[];
    Finishes(start, Switched(w, h, plane), h);
    assert Put(Switched(w, h, plane), h, Idle) == Updated(v, p, plane);
  }

  /** Handler 0 changes the session lifetime, and its management reload makes handler 1. */
  lemma ReloadMakesHandler()
    ensures Reaches(Booted(Boot()), View(Configured(2, "off"), PartOf(Lower(), TrafficPort), map[], 2, Idle, Idle))
  {
    var v := View(Boot(), PartOf(Lower(), TrafficPort), map[], 1, Idle, Idle);
    LongerIsPrepared();
    forall plane: Plane ensures Changed(Lower(), Cors("off"), plane) <==> plane in {ManagementPort} {
      SessionParts(plane);
    }
    assert Runs(Booted(Boot()), [], Booted(Boot())) && Shows(Booted(Boot()), v);
    assert Reaches(Booted(Boot()), v);
    hide Reaches, Changed, PartOf, Booted, PreparedFrom;
    Updates(Booted(Boot()), v, 0, LongerSessions(), Longer(), ManagementPort);
  }

  /** Handler 1 turns CORS on while the update of handler 0 stands at `late`. */
  lemma OneTurnsOn(start: Service, late: Update)
    requires Reaches(start, View(Configured(2, "off"), PartOf(Lower(), TrafficPort), map[], 2, late, Idle))
    ensures Reaches(start, View(Configured(3, "on"), PartOf(Cors("on"), TrafficPort), map[], 2, late, Idle))
  {
    TurnIsPrepared(2, "off", "on");
    forall plane: Plane ensures Changed(Cors("off"), Cors("on"), plane) <==> plane in {TrafficPort} {
      CorsParts("off", "on", plane);
    }
    hide Reaches, Changed, PartOf, PreparedFrom, Turn, Turned, Cors;
    Updates(start, View(Configured(2, "off"), PartOf(Lower(), TrafficPort), map[], 2, late, Idle), 1, Turn(2, "on"),
            Prepared(2, Turned("on"), Cors("on")), TrafficPort);
  }

  /** Handler 0 turns it off, but compares with a configuration that has it off already. */
  lemma ZeroTurnsOff(start: Service, late: Update)
    requires late == Started(Turn(3, "off"), Cors("off"), 2)
    requires Reaches(start, View(Configured(3, "on"), PartOf(Cors("on"), TrafficPort), map[], 2, late, Idle))
    ensures Reaches(start, View(Configured(4, "off"), PartOf(Cors("on"), TrafficPort), map[], 2, Idle, Idle))
  {
    TurnIsPrepared(3, "on", "off");
    forall plane: Plane ensures !Changed(Cors("off"), Cors("off"), plane) {
    }
    var p := Prepared(3, Turned("off"), Cors("off"));
    assert Committed(Configured(3, "on"), p, true) == Configured(4, "off") && Configured(3, "on").revision == 3;
    assert LocksOf({}, 0) == map[];
    hide Reaches, Changed, PartOf, PreparedFrom, Turn, Turned, Cors, Configured, Committed, LocksOf;
    var v := View(Configured(3, "on"), PartOf(Cors("on"), TrafficPort), map[], 2, late, Idle);
    Prepares(start, v, 0, p);
    v := v.(zero := Preparing(p, Cors("off"), 2, 0, {}));
    AsksAll(start, v, 0, {});
    v := v.(zero := Preparing(p, Cors("off"), 2, 3, {}));
    CommitsNow(start, v, 0);
    v := v.(zero := Activating(Cors("off"), {}), config := Configured(4, "off"));
    Finishes(start, v, 0);
  }

  lemma EndIsWrong(start: Service)
    requires Reaches(start, View(Configured(4, "off"), PartOf(Cors("on"), TrafficPort), map[], 2, Idle, Idle))
    requires PartOf(Cors("on"), TrafficPort) != PartOf(Cors("off"), TrafficPort)
    ensures exists steps, end :: Runs(start, steps, end) && Missed(end)
  {
    hide Runs, PartOf;
    var steps, end :| Runs(start, steps, end) &&
      Shows(end, View(Configured(4, "off"), PartOf(Cors("on"), TrafficPort), map[], 2, Idle, Idle));
    assert forall h :: h in end.updates ==> UpdateOf(end, h) == Idle;
  }
}
