/**
  Hot reload: one configuration update as a two-phase commit over the
  configuration manager and three listener planes (internal/httpapi/handler.go,
  internal/app/management.go, internal/app/traffic.go, internal/app/udp.go).
 */
module Reload {
  import opened Common
  import opened Settings
  import opened ConfigManager

  // ------------------------------------------------------------------
  // What the planes take from a configuration
  // ------------------------------------------------------------------

  type Setting = Option<Value>

  function Get(cfg: Config, f: Field): (s: Setting)
    ensures s.Some? <==> f in cfg
    ensures s.Some? ==> s.value == cfg[f]
  {
    if f in cfg then Option.Some(cfg[f]) else None
  }

  datatype Auth = Auth(username: Setting, password: Setting, sessionTtl: Setting)

  datatype Udp = Udp(enabled: bool, listen: Setting, mode: Setting, upstream: Setting, limits: seq<Setting>)

  function AuthOf(cfg: Config): Auth {
    Auth(Get(cfg, Username), Get(cfg, Password), Get(cfg, SessionTtl))
  }

  function UdpOf(cfg: Config): Udp {
    Udp(Get(cfg, UdpEnabled) == Option.Some(Flag(true)), Get(cfg, UdpListen), Get(cfg, UdpMode), Get(cfg, UdpUpstream),
        [Get(cfg, UdpMaxDatagramBytes), Get(cfg, UdpMaxSessions), Get(cfg, UdpSessionTtl), Get(cfg, UdpCaptureResponse),
         Get(cfg, UdpMaxReplies), Get(cfg, UdpMaxReplyBytes)])
  }

  predicate Proxies(udp: Udp) {
    udp.mode == Option.Some(Text("proxy"))
  }

  predicate ManagementChanged(current: Config, next: Config) {
    Get(current, ManagementListen) != Get(next, ManagementListen) || AuthOf(current) != AuthOf(next)
  }

  predicate TrafficChanged(current: Config, next: Config) {
    Get(current, TrafficListen) != Get(next, TrafficListen) || Get(current, CorsEnabled) != Get(next, CorsEnabled)
  }

  predicate UdpChanged(current: Config, next: Config) {
    UdpOf(current) != UdpOf(next)
  }

  // The same changes, field by field.

  /** Two configurations disagree about a field. */
  ghost predicate Differ(current: Config, next: Config, f: Field) {
    (f in current) != (f in next) || (f in current && f in next && current[f] != next[f])
  }

  ghost predicate TurnedOn(cfg: Config) {
    UdpEnabled in cfg && cfg[UdpEnabled] == Flag(true)
  }

  const MANAGEMENT_FIELDS: set<Field> := {ManagementListen, Username, Password, SessionTtl}

  const TRAFFIC_FIELDS: set<Field> := {TrafficListen, CorsEnabled}

  /** The UDP settings besides the switch. */
  const UDP_FIELDS: set<Field> :=
    {UdpListen, UdpMode, UdpUpstream, UdpMaxDatagramBytes, UdpMaxSessions, UdpSessionTtl, UdpCaptureResponse,
     UdpMaxReplies, UdpMaxReplyBytes}

  /** A plane counts as changed exactly when the configurations disagree about one of its fields. */
  lemma ChangedFields(current: Config, next: Config)
    ensures ManagementChanged(current, next) <==> exists f :: f in MANAGEMENT_FIELDS && Differ(current, next, f)
    ensures TrafficChanged(current, next) <==> exists f :: f in TRAFFIC_FIELDS && Differ(current, next, f)
    ensures UdpChanged(current, next)
       <==> TurnedOn(current) != TurnedOn(next) || exists f :: f in UDP_FIELDS && Differ(current, next, f)
  {
    SameSettings(current, next);
    assert ManagementChanged(current, next) ==>
        Differ(current, next, ManagementListen) || Differ(current, next, Username) || Differ(current, next, Password)
        || Differ(current, next, SessionTtl);
    assert TrafficChanged(current, next) ==> Differ(current, next, TrafficListen) || Differ(current, next, CorsEnabled);
    UdpFields(current, next);
  }

  lemma SameSettings(current: Config, next: Config)
    ensures forall f :: Get(current, f) == Get(next, f) <==> !Differ(current, next, f)
  {
  }

  lemma UdpFields(current: Config, next: Config)
    ensures UdpChanged(current, next)
       <==> TurnedOn(current) != TurnedOn(next) || exists f :: f in UDP_FIELDS && Differ(current, next, f)
  {
    SameSettings(current, next);
    var a, b := UdpOf(current), UdpOf(next);
    assert a.enabled == TurnedOn(current) && b.enabled == TurnedOn(next);
    hide Differ;
    if a.limits != b.limits {
      var i :| 0 <= i < |a.limits| && a.limits[i] != b.limits[i];
      var fields := [UdpMaxDatagramBytes, UdpMaxSessions, UdpSessionTtl, UdpCaptureResponse, UdpMaxReplies, UdpMaxReplyBytes];
      assert a.limits[i] == Get(current, fields[i]) && b.limits[i] == Get(next, fields[i]);
      assert fields[i] in UDP_FIELDS;
    } else if f :| f in UDP_FIELDS && Differ(current, next, f) {
      assert a.limits[0] == b.limits[0] && a.limits[1] == b.limits[1] && a.limits[2] == b.limits[2]
          && a.limits[3] == b.limits[3] && a.limits[4] == b.limits[4] && a.limits[5] == b.limits[5];
    } else if a != b {
      assert a.enabled != b.enabled || a.listen != b.listen || a.mode != b.mode || a.upstream != b.upstream;
      assert UdpListen in UDP_FIELDS && UdpMode in UDP_FIELDS && UdpUpstream in UDP_FIELDS;
    }
  }

  /** What the three planes serve with. */
  datatype Planes = Planes(management: Setting, auth: Auth, traffic: Setting, cors: Setting, udp: Udp)

  function PlanesOf(cfg: Config): Planes {
    Planes(Get(cfg, ManagementListen), AuthOf(cfg), Get(cfg, TrafficListen), Get(cfg, CorsEnabled), UdpOf(cfg))
  }

  /** The planes serve with what the configuration says, setting by setting. */
  ghost predicate ServesWith(p: Planes, cfg: Config) {
    && p.management == Get(cfg, ManagementListen)
    && p.auth.username == Get(cfg, Username) && p.auth.password == Get(cfg, Password)
    && p.auth.sessionTtl == Get(cfg, SessionTtl)
    && p.traffic == Get(cfg, TrafficListen) && p.cors == Get(cfg, CorsEnabled)
    && p.udp.enabled == TurnedOn(cfg) && p.udp.listen == Get(cfg, UdpListen) && p.udp.mode == Get(cfg, UdpMode)
    && p.udp.upstream == Get(cfg, UdpUpstream)
    && p.udp.limits == [Get(cfg, UdpMaxDatagramBytes), Get(cfg, UdpMaxSessions), Get(cfg, UdpSessionTtl),
                        Get(cfg, UdpCaptureResponse), Get(cfg, UdpMaxReplies), Get(cfg, UdpMaxReplyBytes)]
  }

  lemma ServesExactly(p: Planes, cfg: Config)
    ensures ServesWith(p, cfg) <==> p == PlanesOf(cfg)
  {
  }

  /** The planes after an update that compared `seen` with `next`. */
  function PlanesAfter(p: Planes, seen: Config, next: Config): Planes {
    var q := PlanesOf(next);
    var r := if ManagementChanged(seen, next) then p.(management := q.management, auth := q.auth) else p;
    var s := if TrafficChanged(seen, next) then r.(traffic := q.traffic, cors := q.cors) else r;
    if UdpChanged(seen, next) then s.(udp := q.udp) else s
  }

  /** What the outside world answers during one update. */
  datatype World = World(
    managementBinds: bool, trafficBinds: bool, upstreamResolves: bool, udpBinds: bool, writable: bool)

  datatype Open = Open(management: bool, traffic: bool, udp: bool)

  /** Whether all three planes can prepare for `next`. */
  predicate Granted(p: Planes, open: Open, seen: Config, next: Config, world: World) {
    && (ManagementChanged(seen, next) ==>
          open.management && (Get(next, ManagementListen) != p.management ==> world.managementBinds))
    && (TrafficChanged(seen, next) ==>
          open.traffic && (Get(next, TrafficListen) != p.traffic ==> world.trafficBinds))
    && (UdpChanged(seen, next) ==>
          open.udp && (UdpOf(next).enabled ==>
            world.upstreamResolves && (!p.udp.enabled || UdpOf(next).listen != p.udp.listen ==> world.udpBinds)))
  }

  /** A changed plane can be prepared when it is open and what it newly needs from outside is granted, field by field. */
  lemma GrantsExactly(p: Planes, open: Open, seen: Config, next: Config, world: World)
    ensures Granted(p, open, seen, next, world)
       <==> && ((exists f :: f in MANAGEMENT_FIELDS && Differ(seen, next, f)) ==>
                  open.management && (world.managementBinds || p.management == Get(next, ManagementListen)))
            && ((exists f :: f in TRAFFIC_FIELDS && Differ(seen, next, f)) ==>
                  open.traffic && (world.trafficBinds || p.traffic == Get(next, TrafficListen)))
            && ((TurnedOn(seen) != TurnedOn(next) || exists f :: f in UDP_FIELDS && Differ(seen, next, f)) ==>
                  && open.udp
                  && (TurnedOn(next) ==>
                        && world.upstreamResolves
                        && (world.udpBinds || (p.udp.enabled && p.udp.listen == Get(next, UdpListen)))))
  {
    ChangedFields(seen, next);
    hide Differ;
  }

  // ------------------------------------------------------------------
  // Whole runs of updates
  // ------------------------------------------------------------------

  datatype Site = Site(config: State, planes: Planes)

  ghost predicate Applies(rules: Rules, lower: Config, site: Site, open: Open, request: Request, world: World) {
    var p := PreparedFrom(rules, lower, site.config, request);
    p.Some? && world.writable && Granted(site.planes, open, site.config.effective, p.value.effective, world)
  }

  /** One update: everything changes or nothing does. */
  ghost function Updated(rules: Rules, lower: Config, site: Site, open: Open, request: Request, world: World): Site {
    if Applies(rules, lower, site, open, request, world) then
      var p := PreparedFrom(rules, lower, site.config, request).value;
      Site(Committed(site.config, p, true), PlanesAfter(site.planes, site.config.effective, p.effective))
    else site
  }

  /** An update applies exactly when it can be prepared, its planes can be, and the file can be written. */
  lemma UpdatesExactly(rules: Rules, lower: Config, site: Site, open: Open, request: Request, world: World)
    ensures var after := Updated(rules, lower, site, open, request, world);
            && (forall p :: Prepares(rules, lower, site.config, request, p) ==>
                  world.writable && Granted(site.planes, open, site.config.effective, p.effective, world) ==>
                  && after.config == State(p.effective, p.overrides, site.config.revision + 1, p.overrides)
                  && after.planes == PlanesAfter(site.planes, site.config.effective, p.effective))
            && ((forall p :: Prepares(rules, lower, site.config, request, p) ==>
                   !world.writable || !Granted(site.planes, open, site.config.effective, p.effective, world)) ==>
                  after == site)
  {
    forall p ensures PreparedFrom(rules, lower, site.config, request) == Some(p)
                <==> Prepares(rules, lower, site.config, request, p) {
      PreparesExactly(rules, lower, site.config, request, p);
    }
    hide Prepares, PreparedFrom, Granted, PlanesAfter;
  }

  ghost predicate Serving(site: Site) {
    site.planes == PlanesOf(site.config.effective)
  }

  ghost function AfterUpdates(rules: Rules, lower: Config, start: Site, updates: seq<(Open, Request, World)>): Site {
    if updates == [] then start
    else
      var last := updates[|updates| - 1];
      Updated(rules, lower, AfterUpdates(rules, lower, start, updates[..|updates| - 1]), last.0, last.1, last.2)
  }

  /** Updates of one handler happen one after another. */
  lemma OneMoreUpdate(rules: Rules, lower: Config, start: Site, updates: seq<(Open, Request, World)>,
                      open: Open, request: Request, world: World)
    ensures AfterUpdates(rules, lower, start, updates + [(open, request, world)])
         == Updated(rules, lower, AfterUpdates(rules, lower, start, updates), open, request, world)
  {
    assert (updates + [(open, request, world)])[..|updates|] == updates;
  }

  /** Over any run of updates, failed and successful, every plane serves with the effective configuration. */
  lemma {:induction false} PlanesFollowConfiguration(rules: Rules, lower: Config, start: Site, updates: seq<(Open,
                                                     Request, World)>)
    requires Serving(start)
    ensures Serving(AfterUpdates(rules, lower, start, updates))
    ensures var site := AfterUpdates(rules, lower, start, updates); ServesWith(site.planes, site.config.effective)
  {
    var end := AfterUpdates(rules, lower, start, updates);
    ServesExactly(end.planes, end.config.effective);
    hide ServesWith;
    if updates != [] {
      var n := |updates| - 1;
      PlanesFollowConfiguration(rules, lower, start, updates[..n]);
      var site := AfterUpdates(rules, lower, start, updates[..n]);
      var last := updates[n];
      if Applies(rules, lower, site, last.0, last.1, last.2) {
        FreshReadFollows(site.config.effective, PreparedFrom(rules, lower, site.config, last.1).value.effective);
      }
    }
  }

  lemma FreshReadFollows(current: Config, next: Config)
    ensures PlanesAfter(PlanesOf(current), current, next) == PlanesOf(next)
  {
  }

  // ------------------------------------------------------------------
  // Sockets
  // ------------------------------------------------------------------

  type Socket = nat

  ghost function Opened(candidate: Option<Socket>): set<Socket> {
    if candidate.Some? then {candidate.value} else {}
  }

  /** Open sockets with the address each is bound to; HTTP sockets being drained close on their own. */
  class Network {
    var bound: map<Socket, Setting>
    var draining: set<Socket>
    var next: Socket

    ghost predicate Valid()
      reads this
    {
      && (forall s :: s in bound ==> s < next)
      && (forall s :: s in draining ==> s in bound)
    }

    constructor ()
      ensures Valid() && bound == map[] && draining == {}
    {
      bound, draining, next := map[], {}, 0;
    }

    method Listen(address: Setting, free: bool) returns (s: Option<Socket>)
      requires Valid()
      modifies this`bound, this`next
      ensures Valid() && (s.Some? <==> free)
      ensures s.None? ==> bound == old(bound) && next == old(next)
      ensures s.Some? ==> s.value == old(next) && s.value !in old(bound) && bound == old(bound)[s.value := address]
    {
      if !free {
        return None;
      }
      s := Option.Some(next);
      bound := bound[next := address];
      next := next + 1;
    }

    method Close(s: Socket)
      requires Valid() && s in bound && s !in draining
      modifies this`bound
      ensures Valid() && bound == old(bound) - {s}
    {
      bound := bound - {s};
    }

    method Drain(s: Socket)
      requires Valid() && s in bound
      modifies this`draining
      ensures Valid() && draining == old(draining) + {s}
    {
      draining := draining + {s};
    }
  }

  // ------------------------------------------------------------------
  // The management plane
  // ------------------------------------------------------------------

  /** `locked` is the transition mutex: held from a successful Prepare to the plan's Activate or Abort. */
  class ManagementPlane {
    var locked: bool
    var closed: bool
    var address: Setting
    var listener: Socket
    var auth: Auth

    constructor (cfg: Config, listener: Socket)
      ensures !locked && !closed && address == Get(cfg, ManagementListen) && auth == AuthOf(cfg) && this.listener == listener
    {
      locked, closed := false, false;
      address, auth := Get(cfg, ManagementListen), AuthOf(cfg);
      this.listener := listener;
    }

    method Prepare(net: Network, cfg: Config, free: bool) returns (plan: ManagementPlan?)
      requires net.Valid() && !locked
      modifies this`locked, net`bound, net`next
      ensures net.Valid()
      ensures plan != null <==> !closed && (Get(cfg, ManagementListen) != address ==> free)
      ensures plan == null ==> !locked && net.bound == old(net.bound)
      ensures plan != null ==>
        && fresh(plan) && plan.Pending() && plan.plane == this && plan.config == cfg
        && Bound(plan.listener, old(net.bound), net.bound, Get(cfg, ManagementListen))
        && (plan.listener.Some? <==> Get(cfg, ManagementListen) != address)
    {
      locked := true;
      if closed {
        locked := false;
        return null;
      }
      var candidate := None;
      if Get(cfg, ManagementListen) != address {
        candidate := net.Listen(Get(cfg, ManagementListen), free);
        if candidate.None? {
          locked := false;
          return null;
        }
      }
      plan := new ManagementPlan(this, cfg, candidate);
    }
  }

  /** What a prepare has opened: nothing, or one new socket at the wanted address. */
  ghost predicate Bound(candidate: Option<Socket>, before: map<Socket, Setting>, after: map<Socket, Setting>,
                        address: Setting) {
    match candidate
    case None => after == before
    case Some(s) => s !in before && after == before[s := address]
  }

  class ManagementPlan {
    const plane: ManagementPlane
    const config: Config
    const listener: Option<Socket>
    var completed: bool

    /** An unfinished plan holds its plane's transition lock. */
    ghost predicate Pending()
      reads this, plane
    {
      !completed && plane.locked
    }

    constructor (plane: ManagementPlane, config: Config, listener: Option<Socket>)
      ensures this.plane == plane && this.config == config && this.listener == listener && !completed
    {
      this.plane, this.config, this.listener := plane, config, listener;
      completed := false;
    }

    /** `authNow` is what the new handler reads from the configuration manager. */
    method Activate(net: Network, authNow: Auth)
      requires net.Valid() && (!completed ==> Pending())
      requires listener.Some? && !completed ==> plane.listener in net.bound
      modifies this`completed, plane, net`draining
      ensures net.Valid() && completed && plane.closed == old(plane.closed)
      ensures old(completed) ==> unchanged(plane) && unchanged(net)
      ensures !old(completed) ==>
        && !plane.locked && plane.address == Get(config, ManagementListen) && plane.auth == authNow
        && plane.listener == (if listener.Some? then listener.value else old(plane.listener))
        && net.draining == old(net.draining) + (if listener.Some? then {old(plane.listener)} else {})
    {
      if completed {
        return;
      }
      completed := true;
      plane.auth := authNow;
      plane.address := Get(config, ManagementListen);
      if listener.Some? {
        net.Drain(plane.listener);
        plane.listener := listener.value;
      }
      plane.locked := false;
    }

    method Abort(net: Network)
      requires net.Valid() && (!completed ==> Pending())
      requires listener.Some? && !completed ==> listener.value in net.bound && listener.value !in net.draining
      modifies this`completed, plane`locked, net`bound
      ensures net.Valid() && completed
      ensures old(completed) ==> unchanged(plane) && unchanged(net)
      ensures !old(completed) ==>
        !plane.locked && net.bound == old(net.bound) - (if listener.Some? then {listener.value} else {})
    {
      if completed {
        return;
      }
      completed := true;
      if listener.Some? {
        net.Close(listener.value);
      }
      plane.locked := false;
    }
  }

  // ------------------------------------------------------------------
  // The traffic plane
  // ------------------------------------------------------------------

  class TrafficPlane {
    var locked: bool
    var closed: bool
    var address: Setting
    var listener: Socket
    var cors: Setting

    constructor (cfg: Config, listener: Socket)
      ensures !locked && !closed && address == Get(cfg, TrafficListen) && cors == Get(cfg, CorsEnabled) && this.listener == listener
    {
      locked, closed := false, false;
      address, cors := Get(cfg, TrafficListen), Get(cfg, CorsEnabled);
      this.listener := listener;
    }

    method Prepare(net: Network, cfg: Config, free: bool) returns (plan: TrafficPlan?)
      requires net.Valid() && !locked
      modifies this`locked, net`bound, net`next
      ensures net.Valid()
      ensures plan != null <==> !closed && (Get(cfg, TrafficListen) != address ==> free)
      ensures plan == null ==> !locked && net.bound == old(net.bound)
      ensures plan != null ==>
        && fresh(plan) && plan.Pending() && plan.plane == this && plan.config == cfg
        && Bound(plan.listener, old(net.bound), net.bound, Get(cfg, TrafficListen))
        && (plan.listener.Some? <==> Get(cfg, TrafficListen) != address)
    {
      locked := true;
      if closed {
        locked := false;
        return null;
      }
      var candidate := None;
      if Get(cfg, TrafficListen) != address {
        candidate := net.Listen(Get(cfg, TrafficListen), free);
        if candidate.None? {
          locked := false;
          return null;
        }
      }
      plan := new TrafficPlan(this, cfg, candidate);
    }
  }

  class TrafficPlan {
    const plane: TrafficPlane
    const config: Config
    const listener: Option<Socket>
    var completed: bool

    ghost predicate Pending()
      reads this, plane
    {
      !completed && plane.locked
    }

    constructor (plane: TrafficPlane, config: Config, listener: Option<Socket>)
      ensures this.plane == plane && this.config == config && this.listener == listener && !completed
    {
      this.plane, this.config, this.listener := plane, config, listener;
      completed := false;
    }

    /** The CORS flag changes at once; the address only with a new listener. */
    method Activate(net: Network)
      requires net.Valid() && (!completed ==> Pending())
      requires listener.Some? && !completed ==> plane.listener in net.bound
      modifies this`completed, plane, net`draining
      ensures net.Valid() && completed && plane.closed == old(plane.closed)
      ensures old(completed) ==> unchanged(plane) && unchanged(net)
      ensures !old(completed) ==>
        && !plane.locked && plane.cors == Get(config, CorsEnabled)
        && plane.address == (if listener.Some? then Get(config, TrafficListen) else old(plane.address))
        && plane.listener == (if listener.Some? then listener.value else old(plane.listener))
        && net.draining == old(net.draining) + (if listener.Some? then {old(plane.listener)} else {})
    {
      if completed {
        return;
      }
      completed := true;
      plane.cors := Get(config, CorsEnabled);
      if listener.None? {
        plane.locked := false;
        return;
      }
      net.Drain(plane.listener);
      plane.listener := listener.value;
      plane.address := Get(config, TrafficListen);
      plane.locked := false;
    }

    method Abort(net: Network)
      requires net.Valid() && (!completed ==> Pending())
      requires listener.Some? && !completed ==> listener.value in net.bound && listener.value !in net.draining
      modifies this`completed, plane`locked, net`bound
      ensures net.Valid() && completed
      ensures old(completed) ==> unchanged(plane) && unchanged(net)
      ensures !old(completed) ==>
        !plane.locked && net.bound == old(net.bound) - (if listener.Some? then {listener.value} else {})
    {
      if completed {
        return;
      }
      completed := true;
      if listener.Some? {
        net.Close(listener.value);
      }
      plane.locked := false;
    }
  }

  // ------------------------------------------------------------------
  // The UDP plane
  // ------------------------------------------------------------------

  /** `sessions` is the listener that proxy sessions answer through, when there are any. */
  class UdpPlane {
    var locked: bool
    var closed: bool
    var settings: Udp
    var listener: Option<Socket>
    var sessions: Option<Socket>

    /** A listener exists exactly while the plane is enabled and open, and answers exactly in proxy mode. */
    ghost predicate Consistent()
      reads this
    {
      && (listener.Some? <==> settings.enabled && !closed)
      && sessions == if Proxies(settings) then listener else None
    }

    constructor (cfg: Config, listener: Option<Socket>)
      requires listener.Some? <==> UdpOf(cfg).enabled
      ensures !locked && !closed && settings == UdpOf(cfg) && this.listener == listener && Consistent()
    {
      locked, closed := false, false;
      settings := UdpOf(cfg);
      this.listener := listener;
      sessions := if Proxies(UdpOf(cfg)) then listener else None;
    }

    method Prepare(net: Network, cfg: Config, resolves: bool, free: bool) returns (plan: UdpPlan?)
      requires net.Valid() && !locked && Consistent()
      modifies this`locked, net`bound, net`next
      ensures net.Valid()
      ensures var wanted := UdpOf(cfg);
              var binds := wanted.enabled && (!settings.enabled || wanted.listen != settings.listen);
              && (plan != null <==> !closed && (wanted.enabled ==> resolves) && (binds ==> free))
              && (plan == null ==> !locked && net.bound == old(net.bound))
              && (plan != null ==>
                    && fresh(plan) && plan.Pending() && plan.plane == this && plan.config == wanted
                    && Bound(plan.listener, old(net.bound), net.bound, wanted.listen)
                    && (plan.listener.Some? <==> binds))
    {
      locked := true;
      if closed {
        locked := false;
        return null;
      }
      var wanted := UdpOf(cfg);
      if !wanted.enabled {
        plan := new UdpPlan(this, wanted, None);
        return;
      }
      if !resolves {
        locked := false;
        return null;
      }
      var candidate := None;
      if listener.None? || settings.listen != wanted.listen {
        candidate := net.Listen(wanted.listen, free);
        if candidate.None? {
          locked := false;
          return null;
        }
      }
      plan := new UdpPlan(this, wanted, candidate);
    }

    method Close(net: Network)
      requires net.Valid() && !locked && Consistent()
      requires listener.Some? ==> listener.value in net.bound && listener.value !in net.draining
      modifies this, net`bound
      ensures net.Valid() && Consistent() && closed && !locked && settings == old(settings)
      ensures net.bound == old(net.bound) - (if old(listener).Some? then {old(listener).value} else {})
    {
      closed := true;
      var last := listener;
      listener, sessions := None, None;
      if last.Some? {
        net.Close(last.value);
      }
    }
  }

  class UdpPlan {
    const plane: UdpPlane
    const config: Udp
    const listener: Option<Socket>
    var completed: bool

    ghost predicate Pending()
      reads this, plane
    {
      !completed && plane.locked
    }

    constructor (plane: UdpPlane, config: Udp, listener: Option<Socket>)
      ensures this.plane == plane && this.config == config && this.listener == listener && !completed
    {
      this.plane, this.config, this.listener := plane, config, listener;
      completed := false;
    }

    method Activate(net: Network)
      requires net.Valid() && (!completed ==> Pending() && plane.Consistent() && !plane.closed)
      requires !completed && config.enabled && !plane.settings.enabled ==> listener.Some?
      requires !completed && !config.enabled ==> listener.None?
      requires !completed && plane.listener.Some? ==>
        plane.listener.value in net.bound && plane.listener.value !in net.draining && plane.listener != listener
      modifies this`completed, plane, net`bound
      ensures net.Valid() && completed && plane.closed == old(plane.closed)
      ensures old(completed) ==> unchanged(plane) && unchanged(net)
      ensures !old(completed) ==>
        && !plane.locked && plane.Consistent() && plane.settings == config
        && plane.listener == (if !config.enabled then None else if listener.Some? then listener else old(plane.listener))
        && net.bound == old(net.bound) - (Opened(old(plane.listener)) - Opened(plane.listener))
    {
      if completed {
        return;
      }
      completed := true;
      var last := plane.listener;
      var current := last;
      if !config.enabled {
        current := None;
      } else if listener.Some? {
        current := listener;
      }
      plane.settings := config;
      plane.listener := current;
      plane.sessions := if current.None? || !Proxies(config) then None else current;
      if last.Some? && last != current {
        net.Close(last.value);
      }
      plane.locked := false;
    }

    method Abort(net: Network)
      requires net.Valid() && (!completed ==> Pending())
      requires listener.Some? && !completed ==> listener.value in net.bound && listener.value !in net.draining
      modifies this`completed, plane`locked, net`bound
      ensures net.Valid() && completed
      ensures old(completed) ==> unchanged(plane) && unchanged(net)
      ensures !old(completed) ==>
        !plane.locked && net.bound == old(net.bound) - (if listener.Some? then {listener.value} else {})
    {
      if completed {
        return;
      }
      completed := true;
      if listener.Some? {
        net.Close(listener.value);
      }
      plane.locked := false;
    }
  }

  // ------------------------------------------------------------------
  // One update
  // ------------------------------------------------------------------

  class Handler {
    const manager: Manager
    const net: Network
    const management: ManagementPlane
    const traffic: TrafficPlane
    const udp: UdpPlane

    ghost function Here(): Site
      reads manager, management, traffic, udp
    {
      Site(manager.View(), Planes(management.address, management.auth, traffic.address, traffic.cors, udp.settings))
    }

    ghost function OpenPlanes(): Open
      reads management, traffic, udp
    {
      Open(!management.closed, !traffic.closed, !udp.closed)
    }

    ghost function Listeners(): set<Socket>
      reads management, traffic, udp
    {
      {management.listener, traffic.listener} + Opened(udp.listener)
    }

    /** Each plane's listener is open at the plane's address, and the planes share none. */
    ghost predicate Listening()
      reads net, management, traffic, udp
    {
      && net.Valid() && udp.Consistent()
      && Listeners() <= net.bound.Keys - net.draining
      && net.bound[management.listener] == management.address
      && net.bound[traffic.listener] == traffic.address
      && (udp.listener.Some? ==> net.bound[udp.listener.value] == udp.settings.listen)
      && management.listener != traffic.listener
      && udp.listener != Option.Some(management.listener) && udp.listener != Option.Some(traffic.listener)
    }

    ghost predicate Unlocked()
      reads management, traffic, udp
    {
      !management.locked && !traffic.locked && !udp.locked
    }

    /** Between updates: nothing locked, and no socket open but the listeners and those being drained. */
    ghost predicate Valid()
      reads net, management, traffic, udp
    {
      Listening() && Unlocked() && net.bound.Keys == Listeners() + net.draining
    }

    constructor (manager: Manager, net: Network, management: ManagementPlane, traffic: TrafficPlane, udp: UdpPlane)
      ensures this.manager == manager && this.net == net
      ensures this.management == management && this.traffic == traffic && this.udp == udp
    {
      this.manager, this.net, this.management, this.traffic, this.udp := manager, net, management, traffic, udp;
    }

    /** The prepared plans: each holds its plane's lock, and what they opened is all that was opened since `before`. */
    ghost predicate Held(m: ManagementPlan?, t: TrafficPlan?, u: UdpPlan?, before: map<Socket, Setting>)
      reads net, management, traffic, udp
      reads m, t, u
    {
      var ms, ts, us := if m == null then {} else Opened(m.listener), if t == null then {} else Opened(t.listener),
                        if u == null then {} else Opened(u.listener);
      && net.Valid()
      && (if m == null then !management.locked else m.plane == management && m.Pending())
      && (if t == null then !traffic.locked else t.plane == traffic && t.Pending())
      && (if u == null then !udp.locked else u.plane == udp && u.Pending())
      && ms !! ts !! us && ms + ts + us !! before.Keys
      && ms + ts + us <= net.bound.Keys && net.draining <= before.Keys
      && net.bound - (ms + ts + us) == before
    }

    ghost predicate At(candidate: Option<Socket>, address: Setting)
      reads net`bound
    {
      candidate.Some? ==> candidate.value in net.bound && net.bound[candidate.value] == address
    }

    ghost predicate ManagementWanted(m: ManagementPlan?, seen: Config, next: Config)
      reads net`bound, management`address
    {
      && (m != null <==> ManagementChanged(seen, next))
      && (m != null ==> m.config == next && At(m.listener, Get(next, ManagementListen))
                        && (m.listener.Some? <==> Get(next, ManagementListen) != management.address))
    }

    ghost predicate TrafficWanted(t: TrafficPlan?, seen: Config, next: Config)
      reads net`bound, traffic`address
    {
      && (t != null <==> TrafficChanged(seen, next))
      && (t != null ==> t.config == next && At(t.listener, Get(next, TrafficListen))
                        && (t.listener.Some? <==> Get(next, TrafficListen) != traffic.address))
    }

    ghost predicate UdpWanted(u: UdpPlan?, seen: Config, next: Config)
      reads net`bound, udp`settings, udp`closed
    {
      && (u != null <==> UdpChanged(seen, next))
      && (u != null ==> !udp.closed && u.config == UdpOf(next) && At(u.listener, UdpOf(next).listen)
                        && (u.listener.Some? <==> UdpOf(next).enabled
                                                  && (!udp.settings.enabled || UdpOf(next).listen != udp.settings.listen)))
    }

    /** In the middle of an update: besides what the plans opened, only listeners and draining sockets are open. */
    ghost predicate Between(m: ManagementPlan?, t: TrafficPlan?, u: UdpPlan?, before: map<Socket, Setting>)
      reads net, management, traffic, udp
      reads m, t, u
    {
      Listening() && Held(m, t, u, before) && before.Keys == Listeners() + net.draining
    }

    method Abort(m: ManagementPlan?, t: TrafficPlan?, u: UdpPlan?, ghost before: map<Socket, Setting>)
      requires Held(m, t, u, before)
      modifies net`bound, management`locked, traffic`locked, udp`locked
      modifies if m == null then {} else {m}, if t == null then {} else {t}, if u == null then {} else {u}
      ensures net.Valid() && Unlocked() && net.bound == before
    {
      if u != null {
        u.Abort(net);
      }
      if t != null {
        t.Abort(net);
      }
      if m != null {
        m.Abort(net);
      }
    }

    /** The deferred aborts of a failed update. */
    method AbortAll(m: ManagementPlan?, t: TrafficPlan?, u: UdpPlan?, ghost before: map<Socket, Setting>)
      requires Between(m, t, u, before)
      modifies net`bound, management`locked, traffic`locked, udp`locked
      modifies if m == null then {} else {m}, if t == null then {} else {t}, if u == null then {} else {u}
      ensures Valid() && net.bound == before
    {
      Abort(m, t, u, before);
    }

    method PrepareManagement(seen: Config, next: Config, world: World)
      returns (ready: bool, m: ManagementPlan?)
      requires Valid()
      modifies net`bound, net`next, management`locked
      ensures ready <==> (ManagementChanged(seen, next) ==>
        !management.closed && (Get(next, ManagementListen) != management.address ==> world.managementBinds))
      ensures Between(m, null, null, old(net.bound)) && (m != null ==> fresh(m))
      ensures ready ==> ManagementWanted(m, seen, next)
    {
      ready, m := true, null;
      if ManagementChanged(seen, next) {
        m := management.Prepare(net, next, world.managementBinds);
        ready := m != null;
      }
    }

    method PrepareTraffic(seen: Config, next: Config, world: World, ghost m: ManagementPlan?,
                          ghost before: map<Socket, Setting>)
      returns (ready: bool, t: TrafficPlan?)
      requires Between(m, null, null, before) && ManagementWanted(m, seen, next)
      modifies net`bound, net`next, traffic`locked
      ensures ready <==> (TrafficChanged(seen, next) ==>
        !traffic.closed && (Get(next, TrafficListen) != traffic.address ==> world.trafficBinds))
      ensures Between(m, t, null, before) && (t != null ==> fresh(t))
      ensures ready ==> ManagementWanted(m, seen, next) && TrafficWanted(t, seen, next)
    {
      ready, t := true, null;
      if TrafficChanged(seen, next) {
        t := traffic.Prepare(net, next, world.trafficBinds);
        ready := t != null;
      }
    }

    /** Whether the UDP plane can prepare for `next`. */
    ghost predicate UdpAgrees(seen: Config, next: Config, world: World)
      reads udp
    {
      UdpChanged(seen, next) ==>
        !udp.closed && (UdpOf(next).enabled ==>
          world.upstreamResolves && (!udp.settings.enabled || UdpOf(next).listen != udp.settings.listen ==> world.udpBinds))
    }

    method AskUdp(seen: Config, next: Config, world: World, ghost m: ManagementPlan?, ghost t: TrafficPlan?,
                  ghost before: map<Socket, Setting>)
      returns (ready: bool, u: UdpPlan?)
      requires Held(m, t, null, before) && udp.Consistent()
      modifies net`bound, net`next, udp`locked
      ensures ready <==> UdpAgrees(seen, next, world)
      ensures Held(m, t, u, before) && (u != null ==> fresh(u))
      ensures forall s :: s in old(net.bound) ==> s in net.bound && net.bound[s] == old(net.bound)[s]
      ensures ready ==> UdpWanted(u, seen, next)
    {
      ready, u := true, null;
      if UdpChanged(seen, next) {
        u := udp.Prepare(net, next, world.upstreamResolves, world.udpBinds);
        ready := u != null;
      }
    }

    method PrepareUdp(seen: Config, next: Config, world: World, ghost m: ManagementPlan?, ghost t: TrafficPlan?,
                      ghost before: map<Socket, Setting>)
      returns (ready: bool, u: UdpPlan?)
      requires Between(m, t, null, before) && ManagementWanted(m, seen, next) && TrafficWanted(t, seen, next)
      modifies net`bound, net`next, udp`locked
      ensures ready <==> UdpAgrees(seen, next, world)
      ensures Between(m, t, u, before) && (u != null ==> fresh(u))
      ensures ready ==> ManagementWanted(m, seen, next) && TrafficWanted(t, seen, next) && UdpWanted(u, seen, next)
    {
      hide UdpAgrees, UdpWanted;
      ready, u := AskUdp(seen, next, world, m, t, before);
      assert Listening();
    }

    /** The UDP part of the switch, with `others` the sockets of the plans still to come. */
    method SwitchUdp(u: UdpPlan, ghost others: set<Socket>, ghost seen: Config, ghost next: Config)
      requires Listening() && u.plane == udp && u.Pending() && UdpWanted(u, seen, next) && !udp.closed
      requires others !! Listeners() && others !! net.draining && others !! Opened(u.listener)
      requires Opened(u.listener) !! Listeners() && Opened(u.listener) !! net.draining
      requires net.bound.Keys == Listeners() + net.draining + others + Opened(u.listener)
      modifies u, net`bound, udp
      ensures Listening() && !udp.locked && udp.settings == UdpOf(next) && udp.closed == old(udp.closed)
      ensures others !! Listeners() && net.bound.Keys == Listeners() + net.draining + others
      ensures forall s :: s in others ==> net.bound[s] == old(net.bound)[s]
    {
      u.Activate(net);
    }

    method ActivateUdp(u: UdpPlan?, ghost m: ManagementPlan?, ghost t: TrafficPlan?, ghost before: map<Socket, Setting>,
                       ghost seen: Config, ghost next: Config)
      returns (ghost after: map<Socket, Setting>)
      requires Between(m, t, u, before) && UdpWanted(u, seen, next)
      requires ManagementWanted(m, seen, next) && TrafficWanted(t, seen, next)
      modifies if u == null then {} else {u}, net`bound, udp
      ensures Between(m, t, null, after) && udp.closed == old(udp.closed)
      ensures udp.settings == if UdpChanged(seen, next) then UdpOf(next) else old(udp.settings)
      ensures ManagementWanted(m, seen, next) && TrafficWanted(t, seen, next)
    {
      after := before;
      if u != null {
        ghost var others := (if m == null then {} else Opened(m.listener)) + (if t == null then {} else Opened(t.listener));
        SwitchUdp(u, others, seen, next);
        after := net.bound - others;
      }
    }

    method ActivateTraffic(t: TrafficPlan?, ghost m: ManagementPlan?, ghost before: map<Socket, Setting>,
                           ghost seen: Config, ghost next: Config)
      returns (ghost after: map<Socket, Setting>)
      requires Between(m, t, null, before) && TrafficWanted(t, seen, next) && ManagementWanted(m, seen, next)
      modifies if t == null then {} else {t}, net`draining, traffic
      ensures Between(m, null, null, after) && traffic.closed == old(traffic.closed) && ManagementWanted(m, seen, next)
      ensures if TrafficChanged(seen, next)
              then traffic.address == Get(next, TrafficListen) && traffic.cors == Get(next, CorsEnabled)
              else traffic.address == old(traffic.address) && traffic.cors == old(traffic.cors)
    {
      after := before;
      if t != null {
        t.Activate(net);
        after := net.bound - (if m == null then {} else Opened(m.listener));
      }
    }

    method ActivateManagement(m: ManagementPlan?, ghost before: map<Socket, Setting>, ghost seen: Config, next: Config)
      requires Between(m, null, null, before) && ManagementWanted(m, seen, next)
      requires manager.effective == next
      modifies if m == null then {} else {m}, net`draining, management
      ensures Valid() && management.closed == old(management.closed)
      ensures if ManagementChanged(seen, next)
              then management.address == Get(next, ManagementListen) && management.auth == AuthOf(next)
              else management.address == old(management.address) && management.auth == old(management.auth)
    {
      if m != null {
        m.Activate(net, AuthOf(manager.effective));
      }
    }

    /** Activation of every plan, in the source's order: UDP, traffic, management. */
    method Activate(m: ManagementPlan?, t: TrafficPlan?, u: UdpPlan?, ghost before: map<Socket, Setting>,
                    ghost seen: Config, next: Config)
      requires Between(m, t, u, before)
      requires ManagementWanted(m, seen, next) && TrafficWanted(t, seen, next) && UdpWanted(u, seen, next)
      requires manager.effective == next
      modifies net`bound, net`draining, management, traffic, udp
      modifies if m == null then {} else {m}, if t == null then {} else {t}, if u == null then {} else {u}
      ensures Valid() && OpenPlanes() == old(OpenPlanes())
      ensures Here().planes == PlanesAfter(old(Here().planes), seen, next)
    {
      hide Between, ManagementWanted, TrafficWanted, UdpWanted, Listening;
      ghost var udpDone := ActivateUdp(u, m, t, before, seen, next);
      ghost var trafficDone := ActivateTraffic(t, m, udpDone, seen, next);
      ActivateManagement(m, trafficDone, seen, next);
    }

    /** Prepares the planes one after another; the first refusal stops, keeping what was prepared. */
    method Prepare(seen: Config, next: Config, world: World)
      returns (ready: bool, m: ManagementPlan?, t: TrafficPlan?, u: UdpPlan?)
      requires Valid()
      modifies net`bound, net`next, management`locked, traffic`locked, udp`locked
      ensures ready <==> Granted(Here().planes, OpenPlanes(), seen, next, world)
      ensures Between(m, t, u, old(net.bound))
      ensures m != null ==> fresh(m)
      ensures t != null ==> fresh(t)
      ensures u != null ==> fresh(u)
      ensures ready ==> ManagementWanted(m, seen, next) && TrafficWanted(t, seen, next) && UdpWanted(u, seen, next)
    {
      hide Between, ManagementWanted, TrafficWanted, UdpWanted, Listening;
      ghost var before := net.bound;
      t, u := null, null;
      ready, m := PrepareManagement(seen, next, world);
      if ready {
        ready, t := PrepareTraffic(seen, next, world, m, before);
      }
      if ready {
        ready, u := PrepareUdp(seen, next, world, m, t, before);
      }
    }

    /** When every plane is prepared, commit and switch over; otherwise, or when the commit fails, abort. */
    method Conclude(prepared: Prepared, ready: bool, m: ManagementPlan?, t: TrafficPlan?, u: UdpPlan?,
                    ghost seen: Config,
                    writable: bool, ghost before: map<Socket, Setting>)
      returns (applied: bool)
      requires Between(m, t, u, before) && prepared.expected == manager.revision
      requires ready ==> ManagementWanted(m, seen, prepared.effective) && TrafficWanted(t, seen, prepared.effective)
                         && UdpWanted(u, seen, prepared.effective)
      modifies manager, net`bound, net`draining, management, traffic, udp
      modifies if m == null then {} else {m}, if t == null then {} else {t}, if u == null then {} else {u}
      ensures Valid() && (applied <==> ready && manager.hasPath && writable)
      ensures manager.View() == Committed(old(manager.View()), prepared, applied)
      ensures applied ==> Here().planes == PlanesAfter(old(Here()).planes, seen, prepared.effective)
      ensures !applied ==> Here().planes == old(Here()).planes && net.bound == before && Listeners() == old(Listeners())
    {
      hide Between, ManagementWanted, TrafficWanted, UdpWanted, Listening;
      hide PlanesAfter, UdpOf, AuthOf, ManagementChanged, TrafficChanged, UdpChanged;
      applied := false;
      if ready {
        var committed := manager.Commit(prepared, writable);
        applied := committed.Ok?;
      }
      if applied {
        Activate(m, t, u, before, seen, prepared.effective);
      } else {
        AbortAll(m, t, u, before);
      }
    }

    /** The update from the first plane's prepare on. */
    method Attempt(prepared: Prepared, current: Config, world: World) returns (applied: bool)
      requires Valid() && prepared.expected == manager.revision
      modifies manager, net, management, traffic, udp
      ensures Valid()
      ensures applied <==> manager.hasPath && world.writable
                           && Granted(old(Here()).planes, old(OpenPlanes()), current, prepared.effective, world)
      ensures manager.View() == Committed(old(manager.View()), prepared, applied)
      ensures applied ==> Here().planes == PlanesAfter(old(Here()).planes, current, prepared.effective)
      ensures !applied ==> Here().planes == old(Here()).planes && net.bound == old(net.bound) && Listeners() == old(Listeners())
    {
      hide Between, ManagementWanted, TrafficWanted, UdpWanted, Listening, Granted;
      hide PlanesAfter, UdpOf, AuthOf, ManagementChanged, TrafficChanged, UdpChanged;
      ghost var before := net.bound;
      var ready, m, t, u := Prepare(current, prepared.effective, world);
      applied := Conclude(prepared, ready, m, t, u, current, world.writable, before);
    }

    /**
      One configuration update. It applies exactly when the update is valid at
      the current revision, every plane it touches can prepare, and the file can
      be written; then everything changes. Otherwise nothing does, and every
      socket opened on the way is closed again. No lock is left held.
     */
    method ApplyConfigurationUpdate(request: Request, world: World) returns (applied: bool)
      requires Valid()
      modifies manager, net, management, traffic, udp
      ensures Valid()
      ensures applied <==> Applies(manager.rules, manager.lower, old(Here()), old(OpenPlanes()), request,
                                   world.(writable := manager.hasPath && world.writable))
      ensures Here() == Updated(manager.rules, manager.lower, old(Here()), old(OpenPlanes()), request,
                                world.(writable := manager.hasPath && world.writable))
      ensures !applied ==> net.bound == old(net.bound) && Listeners() == old(Listeners())
      ensures old(ServesWith(Here().planes, manager.effective)) ==> ServesWith(Here().planes, manager.effective)
      ensures applied ==> manager.revision == old(manager.revision) + 1
      ensures !applied ==> manager.View() == old(manager.View()) && Here().planes == old(Here().planes)
    {
      ghost var site := Here();
      ServesExactly(site.planes, manager.effective);
      hide ServesWith;
      var current := manager.effective;
      var prepared := manager.Prepare(request);
      if prepared.Err? {
        return false;
      }
      applied := Attempt(prepared.value, current, world);
      FreshReadFollows(current, prepared.value.effective);
      ServesExactly(Here().planes, manager.effective);
    }
  }
}
