/** Revisioned configuration updates (internal/config/manager.go) and what a restart reads back. */
module ConfigManager {
  import opened Common
  import opened Settings

  datatype Error = RevisionConflict | BadRequest | Rejected | NotExist | PersistFailed

  /** A value is None when its JSON does not parse. */
  datatype Request = Request(expected: nat, values: map<Field, Option<Node>>, removals: seq<Field>)

  datatype Prepared = Prepared(expected: nat, overrides: map<Field, Node>, effective: Config)

  /** `stored` is what the configuration file holds as UI overrides. */
  datatype State = State(effective: Config, overrides: map<Field, Node>, revision: nat, stored: map<Field, Node>)

  datatype Outcome<T> = Ok(value: T) | Err(error: Error)

  // ------------------------------------------------------------------
  // The operations on values
  // ------------------------------------------------------------------

  ghost predicate WellFormed(request: Request) {
    && (forall f :: f in request.removals ==> !f.Unknown?)
    && (forall f :: f in request.values ==> !f.Unknown? && request.values[f].Some?)
  }

  /** Removals first, then the new values. */
  ghost function Edited(overrides: map<Field, Node>, request: Request): map<Field, Node>
    requires WellFormed(request)
  {
    map f | f in overrides.Keys + request.values.Keys && (f in request.values || f !in request.removals) ::
      if f in request.values then request.values[f].value else overrides[f]
  }

  /** A removed override is gone unless the request sets the field again; every other one stays as it is. */
  ghost predicate EditsTo(overrides: map<Field, Node>, request: Request, next: map<Field, Node>) {
    && (forall f :: f in request.values ==> f in next && request.values[f] == Some(next[f]))
    && (forall f :: f in overrides && f !in request.values && f !in request.removals ==>
          f in next && next[f] == overrides[f])
    && (forall f :: f in request.removals && f !in request.values ==> f !in next)
    && (forall f :: f in next ==> f in overrides || f in request.values)
  }

  lemma EditsExactly(overrides: map<Field, Node>, request: Request, next: map<Field, Node>)
    requires WellFormed(request)
    ensures Edited(overrides, request) == next <==> EditsTo(overrides, request, next)
  {
    if EditsTo(overrides, request, next) {
      var edited := Edited(overrides, request);
      assert forall f :: f in next <==> f in edited;
      assert forall f :: f in next ==> next[f] == edited[f];
    }
  }

  /** Overrides that decode, and the valid configuration they give over the lower one. */
  ghost predicate Accepted(rules: Rules, lower: Config, overrides: map<Field, Node>, effective: Config) {
    PutsInForce(rules, lower, overrides, effective) && rules.valid(effective)
  }

  lemma AcceptsExactly(rules: Rules, lower: Config, overrides: map<Field, Node>, effective: Config)
    ensures Candidate(rules, lower, overrides) == Some(effective) <==> Accepted(rules, lower, overrides, effective)
  {
    AppliesExactly(rules, lower, overrides, effective);
  }

  /** An update prepared on this revision: the edited overrides and what they give. */
  ghost predicate Prepares(rules: Rules, lower: Config, s: State, request: Request, p: Prepared) {
    && request.expected == s.revision == p.expected
    && (forall f :: f in request.removals || f in request.values ==> !f.Unknown?)
    && EditsTo(s.overrides, request, p.overrides)
    && Accepted(rules, lower, p.overrides, p.effective)
  }

  lemma PreparesExactly(rules: Rules, lower: Config, s: State, request: Request, p: Prepared)
    ensures PreparedFrom(rules, lower, s, request) == Some(p) <==> Prepares(rules, lower, s, request, p)
  {
    if Prepares(rules, lower, s, request, p) {
      assert WellFormed(request);
    }
    if WellFormed(request) {
      EditsExactly(s.overrides, request, p.overrides);
      AcceptsExactly(rules, lower, p.overrides, p.effective);
    }
  }

  ghost function PreparedFrom(rules: Rules, lower: Config, s: State, request: Request): Option<Prepared> {
    if request.expected != s.revision || !WellFormed(request) then None
    else
      match Candidate(rules, lower, Edited(s.overrides, request))
      case None => None
      case Some(next) => Some(Prepared(request.expected, Edited(s.overrides, request), next))
  }

  /** The state once `overrides` and their configuration are in force. */
  function InForce(s: State, overrides: map<Field, Node>, effective: Config): State {
    State(effective, overrides, s.revision + 1, overrides)
  }

  /** `written` says whether the file could be replaced. */
  function Committed(s: State, p: Prepared, written: bool): State {
    if p.expected == s.revision && written then InForce(s, p.overrides, p.effective) else s
  }

  ghost function Dropped(rules: Rules, lower: Config, s: State, expected: nat, fields: set<Field>,
                         written: bool): State {
    var next := s.overrides - fields;
    var candidate := Candidate(rules, lower, next);
    if expected == s.revision && fields * s.overrides.Keys != {} && candidate.Some? && written
    then InForce(s, next, candidate.value)
    else s
  }

  /** Without the dropped overrides everything is as before but one revision later, in memory and in the file. */
  ghost predicate Drops(rules: Rules, lower: Config, was: State, fields: set<Field>, now: State) {
    && (forall f :: f in fields ==> f !in now.overrides)
    && now.overrides.Keys <= was.overrides.Keys
    && (forall f :: f in was.overrides && f !in fields ==>
          f in now.overrides && now.overrides[f] == was.overrides[f])
    && now.stored == now.overrides && now.revision == was.revision + 1
    && Accepted(rules, lower, now.overrides, now.effective)
  }

  /** A drop on the current revision of a field that has an override happens exactly when the rest is accepted and written. */
  lemma DropsExactly(rules: Rules, lower: Config, s: State, expected: nat, fields: set<Field>, written: bool, now: State)
    ensures Drops(rules, lower, s, fields, now) && written && expected == s.revision
            && (exists f :: f in fields && f in s.overrides)
       <==> Dropped(rules, lower, s, expected, fields, written) == now && now.revision != s.revision
  {
    AcceptsExactly(rules, lower, s.overrides - fields, now.effective);
    if f :| f in fields && f in s.overrides {
      assert f in fields * s.overrides.Keys;
    }
    if Drops(rules, lower, s, fields, now) {
      assert now.overrides.Keys == s.overrides.Keys - fields;
      assert now.overrides == s.overrides - fields;
    }
  }

  lemma DropRejected(rules: Rules, lower: Config, s: State, fields: set<Field>)
    requires Candidate(rules, lower, s.overrides - fields).None?
    ensures forall now :: !Drops(rules, lower, s, fields, now)
  {
    forall now | Drops(rules, lower, s, fields, now) ensures false {
      assert now.overrides.Keys == s.overrides.Keys - fields;
      assert now.overrides == s.overrides - fields;
      AcceptsExactly(rules, lower, now.overrides, now.effective);
    }
  }

  // ------------------------------------------------------------------
  // Whole runs
  // ------------------------------------------------------------------

  datatype Step =
    | Prepare(request: Request)
    | Commit(p: Prepared, written: bool)
    | Drop(expected: nat, fields: set<Field>, written: bool)

  /** `prepared` holds every update ever prepared, `commits` the revision each successful change was based on. */
  datatype Run = Run(s: State, prepared: set<Prepared>, commits: seq<nat>)

  ghost function Advanced(r: Run, s: State): Run {
    Run(s, r.prepared, if s.revision == r.s.revision then r.commits else r.commits + [r.s.revision])
  }

  ghost function After(rules: Rules, lower: Config, r: Run, step: Step): Run {
    match step
    case Prepare(request) =>
      var p := PreparedFrom(rules, lower, r.s, request);
      if p.Some? then r.(prepared := r.prepared + {p.value}) else r
    case Commit(p, written) => Advanced(r, Committed(r.s, p, written))
    case Drop(expected, fields, written) => Advanced(r, Dropped(rules, lower, r.s, expected, fields, written))
  }

  /** Only prepared updates can be committed. */
  ghost predicate Possible(r: Run, step: Step) {
    step.Commit? ==> step.p in r.prepared
  }

  ghost function AfterAll(rules: Rules, lower: Config, start: State, steps: seq<Step>): Run {
    if steps == [] then Run(start, {}, [])
    else After(rules, lower, AfterAll(rules, lower, start, steps[..|steps| - 1]), steps[|steps| - 1])
  }

  ghost predicate PossibleRun(rules: Rules, lower: Config, start: State, steps: seq<Step>) {
    forall i :: 0 <= i < |steps| ==> Possible(AfterAll(rules, lower, start, steps[..i]), steps[i])
  }

  /** The effective configuration is the lower one under the overrides. */
  ghost predicate InSync(rules: Rules, lower: Config, overrides: map<Field, Node>, effective: Config) {
    Apply(rules, lower, overrides) == Some(effective)
  }

  ghost predicate Inv(rules: Rules, lower: Config, start: State, r: Run) {
    && rules.valid(r.s.effective)
    && (forall p :: p in r.prepared ==> Candidate(rules, lower, p.overrides) == Some(p.effective))
    && r.s.revision == 1 + |r.commits|
    && (forall i :: 0 <= i < |r.commits| ==> r.commits[i] == i + 1)
    && r.s.stored == r.s.overrides
    && (r.commits == [] ==> r.s == start)
    && (r.commits != [] ==> InSync(rules, lower, r.s.overrides, r.s.effective))
  }

  ghost predicate Opening(rules: Rules, start: State) {
    start.revision == 1 && start.stored == start.overrides && rules.valid(start.effective)
  }

  lemma AfterKeepsInv(rules: Rules, lower: Config, start: State, r: Run, step: Step)
    requires Inv(rules, lower, start, r) && Possible(r, step)
    ensures Inv(rules, lower, start, After(rules, lower, r, step))
  {
  }

  lemma {:induction false} RunKeepsInv(rules: Rules, lower: Config, start: State, steps: seq<Step>)
    requires Opening(rules, start) && PossibleRun(rules, lower, start, steps)
    ensures Inv(rules, lower, start, AfterAll(rules, lower, start, steps))
  {
    if steps != [] {
      var n := |steps| - 1;
      assert PossibleRun(rules, lower, start, steps[..n]) by {
        forall i | 0 <= i < n ensures Possible(AfterAll(rules, lower, start, steps[..n][..i]), steps[..n][i]) {
          assert steps[..n][..i] == steps[..i];
        }
      }
      RunKeepsInv(rules, lower, start, steps[..n]);
      AfterKeepsInv(rules, lower, start, AfterAll(rules, lower, start, steps[..n]), steps[n]);
    }
  }

  /** What one step of a run changes: a prepare keeps its update, a commit and a drop move everything at once or nothing. */
  ghost predicate Moves(rules: Rules, lower: Config, r: Run, step: Step, after: Run) {
    match step
    case Prepare(request) =>
      && after.s == r.s && after.commits == r.commits
      && forall p :: p in after.prepared <==> p in r.prepared || Prepares(rules, lower, r.s, request, p)
    case Commit(p, written) =>
      && after.prepared == r.prepared
      && (p.expected == r.s.revision && written ==>
            && after.s.effective == p.effective && after.s.overrides == after.s.stored == p.overrides
            && after.s.revision == r.s.revision + 1 && after.commits == r.commits + [r.s.revision])
      && (p.expected != r.s.revision || !written ==> after == r)
    case Drop(expected, fields, written) =>
      && after.prepared == r.prepared
      && (after != r ==>
            && expected == r.s.revision && written && (exists f :: f in fields && f in r.s.overrides)
            && Drops(rules, lower, r.s, fields, after.s) && after.commits == r.commits + [r.s.revision])
      && (expected == r.s.revision && written && (exists f :: f in fields && f in r.s.overrides)
            && (exists now :: Drops(rules, lower, r.s, fields, now))
          ==> after != r)
  }

  lemma MovesExactly(rules: Rules, lower: Config, r: Run, step: Step)
    ensures Moves(rules, lower, r, step, After(rules, lower, r, step))
  {
    var after := After(rules, lower, r, step);
    match step
    case Prepare(request) =>
      forall p ensures p in after.prepared <==> p in r.prepared || Prepares(rules, lower, r.s, request, p) {
        PreparesExactly(rules, lower, r.s, request, p);
      }
    case Commit(p, written) =>
    case Drop(expected, fields, written) =>
      hide Drops;
      DropsExactly(rules, lower, r.s, expected, fields, written, after.s);
      forall now | Drops(rules, lower, r.s, fields, now)
        ensures expected == r.s.revision && written && (exists f :: f in fields && f in r.s.overrides) ==> after != r
      {
        DropsExactly(rules, lower, r.s, expected, fields, written, now);
      }
  }

  /** Exactly what the requests so far prepared on the revision they met can be committed. */
  lemma {:induction false} PreparedExactly(rules: Rules, lower: Config, start: State, steps: seq<Step>, p: Prepared)
    ensures p in AfterAll(rules, lower, start, steps).prepared
       <==> exists i :: 0 <= i < |steps| && steps[i].Prepare?
                        && Prepares(rules, lower, AfterAll(rules, lower, start, steps[..i]).s, steps[i].request, p)
  {
    if steps != [] {
      var n := |steps| - 1;
      var before := AfterAll(rules, lower, start, steps[..n]);
      PreparedExactly(rules, lower, start, steps[..n], p);
      PrepareKeeps(rules, lower, before, steps[n], p);
      assert forall i :: 0 <= i <= n ==> steps[..n][..i] == steps[..i];
      hide After, Prepares;
    }
  }

  lemma PrepareKeeps(rules: Rules, lower: Config, r: Run, step: Step, p: Prepared)
    ensures p in After(rules, lower, r, step).prepared
       <==> p in r.prepared || (step.Prepare? && Prepares(rules, lower, r.s, step.request, p))
  {
    MovesExactly(rules, lower, r, step);
  }

  /**
    After any run the effective configuration is valid, it is the lower one
    under the overrides exactly when it started so or something has been
    committed, and the revision counts the commits.
   */
  lemma EffectiveMatchesOverrides(rules: Rules, lower: Config, start: State, steps: seq<Step>)
    requires Opening(rules, start) && PossibleRun(rules, lower, start, steps)
    ensures var r := AfterAll(rules, lower, start, steps);
            && rules.valid(r.s.effective)
            && r.s.revision == 1 + |r.commits| && r.s.stored == r.s.overrides
            && (InSync(rules, lower, r.s.overrides, r.s.effective)
                <==> r.commits != [] || InSync(rules, lower, start.overrides, start.effective))
  {
    RunKeepsInv(rules, lower, start, steps);
  }

  /** Of all updates prepared at one revision, at most one is ever committed. */
  lemma OneCommitPerRevision(rules: Rules, lower: Config, start: State, steps: seq<Step>, i: nat, j: nat)
    requires Opening(rules, start) && PossibleRun(rules, lower, start, steps)
    requires i < |AfterAll(rules, lower, start, steps).commits| && j < |AfterAll(rules, lower, start, steps).commits|
    requires AfterAll(rules, lower, start, steps).commits[i] == AfterAll(rules, lower, start, steps).commits[j]
    ensures i == j
  {
    RunKeepsInv(rules, lower, start, steps);
  }

  // ------------------------------------------------------------------
  // Starting up
  // ------------------------------------------------------------------

  /**
    The platform's default database path, which paths are absolute, and how a relative one is joined to
    the file's directory.
   */
  datatype Paths = Paths(fallback: Option<string>, absolute: string -> bool, join: string -> string)

  function Resolve(paths: Paths, path: string): Option<string> {
    if path == "" then paths.fallback
    else if paths.absolute(path) then Some(path)
    else Some(paths.join(path))
  }

  predicate HasPath(cfg: Config) {
    SqlitePath in cfg && cfg[SqlitePath].Text?
  }

  /** resolveSQLitePath. */
  function Resolved(paths: Paths, cfg: Config): Option<Config>
    requires HasPath(cfg)
  {
    match Resolve(paths, cfg[SqlitePath].text)
    case None => None
    case Some(path) => Some(cfg[SqlitePath := Text(path)])
  }

  /** Decoding the database path gives text. */
  ghost predicate PathsDecode(rules: Rules) {
    forall node: Node :: rules.decode(SqlitePath, node).Some? && rules.decode(SqlitePath, node).value.Set?
      ==> rules.decode(SqlitePath, node).value.value.Text?
  }

  datatype Boot = Boot(lower: Config, s: State)

  /** Load followed by NewManager: `base` is what defaults, file, environment and command line give. */
  ghost function Booted(rules: Rules, paths: Paths, base: Config, stored: map<Field, Node>): Option<Boot>
    requires HasPath(base) && PathsDecode(rules)
  {
    var applied := Apply(rules, base, stored);
    if applied.None? then None
    else
      AppliedHasPath(rules, base, stored);
      var effective := Resolved(paths, applied.value);
      if effective.None? || !rules.valid(effective.value) then None
      else if stored == map[] then Some(Boot(effective.value, State(effective.value, map[], 1, map[])))
      else
        var lower := Resolved(paths, base);
        if lower.None? || !rules.valid(lower.value) then None
        else Some(Boot(lower.value, State(effective.value, stored, 1, stored)))
  }

  /** The same configuration with an empty path replaced by the platform's, and a relative one by the joined one. */
  ghost predicate ResolvesTo(paths: Paths, cfg: Config, resolved: Config)
    requires HasPath(cfg)
  {
    var path := cfg[SqlitePath].text;
    && resolved.Keys == cfg.Keys
    && (forall f :: f in cfg && f != SqlitePath ==> resolved[f] == cfg[f])
    && resolved[SqlitePath].Text?
    && (path == "" ==> paths.fallback == Some(resolved[SqlitePath].text))
    && (path != "" && paths.absolute(path) ==> resolved == cfg)
    && (path != "" && !paths.absolute(path) ==> resolved[SqlitePath].text == paths.join(path))
  }

  /**
    What a start gives: the stored overrides over the base with the path resolved
    after them; without overrides that is the lower configuration as well, and
    otherwise the lower one is the resolved base.
   */
  ghost predicate BootsAs(rules: Rules, paths: Paths, base: Config, stored: map<Field, Node>, boot: Boot)
    requires HasPath(base)
  {
    && boot.s.revision == 1 && boot.s.overrides == boot.s.stored == stored
    && rules.valid(boot.s.effective) && rules.valid(boot.lower)
    && (exists applied ::
          && PutsInForce(rules, base, stored, applied) && HasPath(applied)
          && ResolvesTo(paths, applied, boot.s.effective))
    && (if stored == map[] then boot.lower == boot.s.effective else ResolvesTo(paths, base, boot.lower))
  }

  lemma ResolvesExactly(paths: Paths, cfg: Config, resolved: Config)
    requires HasPath(cfg)
    ensures Resolved(paths, cfg) == Some(resolved) <==> ResolvesTo(paths, cfg, resolved)
  {
    if ResolvesTo(paths, cfg, resolved) {
      assert resolved == cfg[SqlitePath := resolved[SqlitePath]];
      assert cfg[SqlitePath := cfg[SqlitePath]] == cfg;
    }
    if Resolved(paths, cfg) == Some(resolved) {
      assert cfg[SqlitePath := cfg[SqlitePath]] == cfg;
    }
  }

  lemma BootsExactly(rules: Rules, paths: Paths, base: Config, stored: map<Field, Node>, boot: Boot)
    requires HasPath(base) && PathsDecode(rules)
    ensures Booted(rules, paths, base, stored) == Some(boot) <==> BootsAs(rules, paths, base, stored, boot)
  {
    forall applied ensures Apply(rules, base, stored) == Some(applied) <==> PutsInForce(rules, base, stored, applied) {
      AppliesExactly(rules, base, stored, applied);
    }
    hide PutsInForce, Apply;
    if Apply(rules, base, stored).Some? {
      var applied := Apply(rules, base, stored).value;
      AppliedHasPath(rules, base, stored);
      ResolvesExactly(paths, applied, boot.s.effective);
      ResolvesExactly(paths, base, boot.lower);
      hide ResolvesTo, Resolved, HasPath;
    }
  }

  lemma AppliedHasPath(rules: Rules, base: Config, stored: map<Field, Node>)
    requires HasPath(base) && PathsDecode(rules) && Apply(rules, base, stored).Some?
    ensures HasPath(Apply(rules, base, stored).value)
  {
  }

  /** The database path an override sets, if one does. */
  function PathOverride(rules: Rules, stored: map<Field, Node>): Option<string> {
    if SqlitePath !in stored then None
    else
      match rules.decode(SqlitePath, stored[SqlitePath])
      case Some(Set(Text(path))) => Some(path)
      case _ => None
  }

  /** Resolving the path before or after the overrides differs only in the path itself. */
  lemma ResolveCommutes(rules: Rules, paths: Paths, base: Config, stored: map<Field, Node>)
    requires HasPath(base) && PathsDecode(rules)
    requires Resolved(paths, base).Some? && Apply(rules, Resolved(paths, base).value, stored).Some?
    ensures Apply(rules, base, stored).Some? && HasPath(Apply(rules, base, stored).value)
    ensures var inForce := Apply(rules, Resolved(paths, base).value, stored).value;
            match PathOverride(rules, stored)
            case None => Resolved(paths, Apply(rules, base, stored).value) == Some(inForce)
            case Some(path) =>
              inForce == Apply(rules, base, stored).value
              && inForce[SqlitePath] == Text(path)
  {
    var lower := Resolved(paths, base).value;
    assert Apply(rules, base, stored).Some?;
    var late, early := Apply(rules, base, stored).value, Apply(rules, lower, stored).value;
    AppliedHasPath(rules, base, stored);
    assert forall f :: f in base && f != SqlitePath ==> late[f] == early[f];
    match PathOverride(rules, stored)
    case None =>
      assert late[SqlitePath] == base[SqlitePath] && early[SqlitePath] == lower[SqlitePath];
      assert late[SqlitePath := lower[SqlitePath]] == early;
    case Some(path) =>
      assert early == late;
  }

  /** A path that resolving gives back unchanged. */
  predicate Settled(paths: Paths, path: string) {
    if path == "" then paths.fallback == Some("") else paths.absolute(path) || paths.join(path) == path
  }

  predicate SettledOverride(rules: Rules, paths: Paths, stored: map<Field, Node>) {
    PathOverride(rules, stored).None? || Settled(paths, PathOverride(rules, stored).value)
  }

  /**
    A freshly started manager is in sync exactly when no override sets the
    database path, or sets one that resolving leaves alone: startup resolves the
    path after the overrides, updates do not.
   */
  lemma StartsInSyncExactly(rules: Rules, paths: Paths, base: Config, stored: map<Field, Node>)
    requires HasPath(base) && PathsDecode(rules)
    requires Booted(rules, paths, base, stored).Some?
    ensures var boot := Booted(rules, paths, base, stored).value;
            && Opening(rules, boot.s)
            && (InSync(rules, boot.lower, boot.s.overrides, boot.s.effective) <==> SettledOverride(rules, paths, stored))
  {
    var boot := Booted(rules, paths, base, stored).value;
    if stored == map[] {
      NothingApplied(rules, boot.lower, stored);
      assert stored.Keys == {};
    } else {
      assert Apply(rules, boot.lower, stored).Some?;
      ResolveCommutes(rules, paths, base, stored);
      var inForce := Apply(rules, boot.lower, stored).value;
      if PathOverride(rules, stored).Some? {
        var path := PathOverride(rules, stored).value;
        assert boot.s.effective == inForce[SqlitePath := Text(Resolve(paths, path).value)];
        assert inForce[SqlitePath := Text(path)] == inForce;
      }
    }
  }

  /** Every node is text, every configuration is valid; a data directory and a configuration in /etc. */
  function PlainRules(): Rules {
    Rules((f: Field, node: Node) => Some(Set(Text(node))), cfg => true)
  }

  function PlainPaths(): Paths {
    Paths(Some("/data/reqrelay.db"), path => |path| > 0 && path[0] == '/', path => "/etc/" + path)
  }

  lemma PlainApply(cfg: Config, stored: map<Field, Node>)
    requires forall f :: f in stored ==> f in cfg && !f.Unknown?
    ensures Apply(PlainRules(), cfg, stored).Some?
    ensures Apply(PlainRules(), cfg, stored).value == map f | f in cfg :: if f in stored then Text(stored[f]) else cfg[f]
  {
    var applied := Apply(PlainRules(), cfg, stored).value;
    assert forall f :: f in cfg ==> applied[f] == if f in stored then Text(stored[f]) else cfg[f];
  }

  function PlainBase(path: string): Config {
    map[SqlitePath := Text(path), Mode := Text("capture")]
  }

  lemma PlainResolved()
    ensures Resolved(PlainPaths(), PlainBase("history.db")) == Some(PlainBase("/etc/history.db"))
    ensures Resolved(PlainPaths(), PlainBase("")) == Some(PlainBase("/data/reqrelay.db"))
  {
    assert "/etc/" + "history.db" == "/etc/history.db";
    assert Resolve(PlainPaths(), "history.db") == Some("/etc/history.db");
    assert PlainBase("history.db")[SqlitePath := Text("/etc/history.db")] == PlainBase("/etc/history.db");
    assert PlainBase("")[SqlitePath := Text("/data/reqrelay.db")] == PlainBase("/data/reqrelay.db");
  }

  lemma PlainBoot()
    ensures Booted(PlainRules(), PlainPaths(), PlainBase(""), map[SqlitePath := "history.db"])
         == Some(Boot(PlainBase("/data/reqrelay.db"),
                      State(PlainBase("/etc/history.db"), map[SqlitePath := "history.db"], 1, map[SqlitePath := "history.db"])))
  {
    var stored := map[SqlitePath := "history.db"];
    PlainResolved();
    PlainApply(PlainBase(""), stored);
    assert Apply(PlainRules(), PlainBase(""), stored).value == PlainBase("history.db");
  }

  lemma PlainChange(lower: Config, s: State)
    requires Mode in lower && SqlitePath in lower
    requires s.revision == 1 && s.overrides == map[SqlitePath := "history.db"]
    ensures var later := PreparedFrom(PlainRules(), lower, s, Request(1, map[Mode := Some("proxy")], []));
            later.Some? && SqlitePath in later.value.effective && later.value.effective[SqlitePath] == Text("history.db")
  {
    var request := Request(1, map[Mode := Some("proxy")], []);
    var edited := Edited(s.overrides, request);
    assert edited[SqlitePath] == "history.db" && edited.Keys == {Mode, SqlitePath};
    PlainApply(lower, edited);
  }

  /** A relative override path is enough: the first later change of another field silently undoes its resolution. */
  lemma RelativePathOutOfSync()
    ensures var boot := Booted(PlainRules(), PlainPaths(), PlainBase(""), map[SqlitePath := "history.db"]);
            && boot.Some? && boot.value.s.effective == PlainBase("/etc/history.db")
            && var later := PreparedFrom(PlainRules(), boot.value.lower, boot.value.s, Request(1, map[Mode := Some("proxy")], []));
               later.Some? && SqlitePath in later.value.effective && later.value.effective[SqlitePath] == Text("history.db")
  {
    PlainBoot();
    var boot := Booted(PlainRules(), PlainPaths(), PlainBase(""), map[SqlitePath := "history.db"]).value;
    PlainChange(boot.lower, boot.s);
  }

  lemma LowerIsResolvedBase(rules: Rules, paths: Paths, base: Config, stored: map<Field, Node>)
    requires HasPath(base) && PathsDecode(rules)
    requires Booted(rules, paths, base, stored).Some?
    ensures Resolved(paths, base) == Some(Booted(rules, paths, base, stored).value.lower)
    ensures rules.valid(Booted(rules, paths, base, stored).value.lower)
  {
    if stored == map[] {
      NothingApplied(rules, base, stored);
      assert stored.Keys == {};
    }
  }

  /** Booting from overrides that are in sync over the resolved base. */
  lemma BootsInSync(rules: Rules, paths: Paths, base: Config, lower: Config, stored: map<Field, Node>,
                    effective: Config)
    requires HasPath(base) && PathsDecode(rules)
    requires Resolved(paths, base) == Some(lower) && rules.valid(lower) && rules.valid(effective)
    requires InSync(rules, lower, stored, effective)
    requires SettledOverride(rules, paths, stored)
    ensures Booted(rules, paths, base, stored) == Some(Boot(lower, State(effective, stored, 1, stored)))
  {
    ResolveCommutes(rules, paths, base, stored);
    var late := Apply(rules, base, stored).value;
    if PathOverride(rules, stored).Some? {
      assert late[SqlitePath := late[SqlitePath]] == late;
    }
    assert Resolved(paths, late) == Some(effective);
    if stored == map[] {
      NothingApplied(rules, lower, stored);
      assert stored.Keys == {};
    }
  }

  /**
    Restarting from the stored overrides gives back the configuration that was
    in force, with no override of the path or one that resolving leaves alone.
   */
  lemma RestartKeepsConfiguration(rules: Rules, paths: Paths, base: Config, stored: map<Field, Node>, steps: seq<Step>)
    requires HasPath(base) && PathsDecode(rules)
    requires Booted(rules, paths, base, stored).Some?
    requires var boot := Booted(rules, paths, base, stored).value;
             && PossibleRun(rules, boot.lower, boot.s, steps)
             && SettledOverride(rules, paths, AfterAll(rules, boot.lower, boot.s, steps).s.stored)
    ensures var boot := Booted(rules, paths, base, stored).value;
            var s := AfterAll(rules, boot.lower, boot.s, steps).s;
            Booted(rules, paths, base, s.stored) == Some(Boot(boot.lower, s.(revision := 1)))
  {
    var boot := Booted(rules, paths, base, stored).value;
    LowerIsResolvedBase(rules, paths, base, stored);
    RunKeepsInv(rules, boot.lower, boot.s, steps);
    var r := AfterAll(rules, boot.lower, boot.s, steps);
    if r.commits != [] {
      BootsInSync(rules, paths, base, boot.lower, r.s.stored, r.s.effective);
    }
  }

  // ------------------------------------------------------------------
  // The object
  // ------------------------------------------------------------------

  class Manager {
    const rules: Rules
    const lower: Config
    /** Whether a configuration path is known; without one nothing can be persisted. */
    const hasPath: bool
    var effective: Config
    var overrides: map<Field, Node>
    var revision: nat
    /** The overrides in the configuration file. */
    var stored: map<Field, Node>

    ghost function View(): State
      reads this
    {
      State(effective, overrides, revision, stored)
    }

    constructor (rules: Rules, boot: Boot, hasPath: bool)
      ensures this.rules == rules && lower == boot.lower && this.hasPath == hasPath && View() == boot.s
    {
      this.rules, lower, this.hasPath := rules, boot.lower, hasPath;
      effective, overrides, revision, stored := boot.s.effective, boot.s.overrides, boot.s.revision, boot.s.stored;
    }

    method Edit(request: Request) returns (next: Option<map<Field, Node>>)
      ensures next.Some? <==> WellFormed(request)
      ensures next.Some? ==> next.value == Edited(overrides, request)
      ensures next.Some? ==> EditsTo(overrides, request, next.value)
    {
      var current := overrides;
      for i := 0 to |request.removals|
        invariant forall f :: f in request.removals[..i] ==> !f.Unknown?
        invariant forall f :: f in current <==> f in overrides && f !in request.removals[..i]
        invariant forall f :: f in current ==> current[f] == overrides[f]
      {
        var field := request.removals[i];
        assert request.removals[..i + 1] == request.removals[..i] + [field];
        if field.Unknown? {
          return None;
        }
        current := current - {field};
      }
      assert request.removals[..|request.removals|] == request.removals;
      var todo := request.values.Keys;
      while todo != {}
        invariant todo <= request.values.Keys
        invariant forall f :: f in request.values && f !in todo ==> !f.Unknown? && request.values[f].Some?
        invariant forall f :: f in current <==> (f in request.values && f !in todo) || (f in overrides && f !in request.removals)
        invariant forall f :: f in current ==>
          current[f] == if f in request.values && f !in todo then request.values[f].value else overrides[f]
        decreases todo
      {
        var field :| field in todo;
        todo := todo - {field};
        if field.Unknown? || request.values[field].None? {
          return None;
        }
        current := current[field := request.values[field].value];
      }
      return Some(current);
    }

    /** Checks an update without changing anything. */
    method Prepare(request: Request) returns (result: Outcome<Prepared>)
      ensures result.Ok? <==> PreparedFrom(rules, lower, View(), request).Some?
      ensures result.Ok? ==> Some(result.value) == PreparedFrom(rules, lower, View(), request)
      ensures result.Ok? ==> Prepares(rules, lower, View(), request, result.value)
      ensures result == Err(RevisionConflict) <==> request.expected != revision
      ensures result == Err(BadRequest)
         <==> && request.expected == revision
              && ((exists f :: f in request.removals && f.Unknown?)
                  || (exists f :: f in request.values && (f.Unknown? || request.values[f].None?)))
      ensures result.Err? ==> result.error.RevisionConflict? || result.error.BadRequest? || result.error.Rejected?
      ensures result.Err? ==> forall p :: !Prepares(rules, lower, View(), request, p)
    {
      forall p ensures PreparedFrom(rules, lower, View(), request) == Some(p)
                  <==> Prepares(rules, lower, View(), request, p) {
        PreparesExactly(rules, lower, View(), request, p);
      }
      if request.expected != revision {
        return Err(RevisionConflict);
      }
      var next := Edit(request);
      if next.None? {
        return Err(BadRequest);
      }
      var candidate := ApplyOverrides(rules, lower, next.value);
      if candidate.None? || !rules.valid(candidate.value) {
        return Err(Rejected);
      }
      return Ok(Prepared(request.expected, next.value, candidate.value));
    }

    /** Replaces the file in one rename, or leaves it; `writable` is what the file system allows. */
    method Persist(next: map<Field, Node>, writable: bool) returns (written: bool)
      modifies this`stored
      ensures written <==> hasPath && writable
      ensures stored == if written then next else old(stored)
    {
      if !hasPath || !writable {
        return false;
      }
      stored := next;
      return true;
    }

    method Commit(p: Prepared, writable: bool) returns (result: Outcome<(Config, nat)>)
      modifies this
      ensures View() == Committed(old(View()), p, hasPath && writable)
      ensures p.expected == old(revision) && hasPath && writable ==>
                && effective == p.effective && overrides == p.overrides && stored == p.overrides
                && revision == old(revision) + 1
      ensures p.expected != old(revision) || !hasPath || !writable ==> View() == old(View())
      ensures result == if p.expected != old(revision) then Err(RevisionConflict)
                        else if hasPath && writable then Ok((effective, revision))
                        else Err(PersistFailed)
    {
      if p.expected != revision {
        return Err(RevisionConflict);
      }
      var written := Persist(p.overrides, writable);
      if !written {
        return Err(PersistFailed);
      }
      effective, overrides, revision := p.effective, p.overrides, revision + 1;
      return Ok((effective, revision));
    }

    method Activate(next: map<Field, Node>, writable: bool) returns (result: Outcome<(Config, nat)>)
      modifies this
      ensures var candidate := Candidate(rules, lower, next);
              && (result.Ok? <==> candidate.Some? && hasPath && writable)
              && View() == (if result.Ok? then InForce(old(View()), next, candidate.value) else old(View()))
              && (result.Ok? ==> result.value == (effective, revision))
              && (result.Err? ==> result.error == if candidate.None? then Rejected else PersistFailed)
    {
      var candidate := ApplyOverrides(rules, lower, next);
      if candidate.None? || !rules.valid(candidate.value) {
        return Err(Rejected);
      }
      var written := Persist(next, writable);
      if !written {
        return Err(PersistFailed);
      }
      effective, overrides, revision := candidate.value, next, revision + 1;
      return Ok((effective, revision));
    }

    method Remove(expected: nat, field: Field, writable: bool) returns (result: Outcome<(Config, nat)>)
      modifies this
      ensures View() == Dropped(rules, lower, old(View()), expected, {field}, hasPath && writable)
      ensures result.Ok? <==> revision == old(revision) + 1
      ensures result.Ok? ==> Drops(rules, lower, old(View()), {field}, View())
      ensures result.Err? ==> View() == old(View())
      ensures result == Err(RevisionConflict) <==> expected != old(revision)
      ensures result == Err(NotExist) <==> expected == old(revision) && !(field in old(overrides))
      ensures result == Err(PersistFailed) ==> !hasPath || !writable
      ensures result == Err(Rejected) ==> forall now :: !Drops(rules, lower, old(View()), {field}, now)
      ensures result.Ok? ==> result.value == (effective, revision)
    {
      if expected != revision {
        return Err(RevisionConflict);
      }
      if field !in overrides {
        assert {field} * overrides.Keys == {};
        return Err(NotExist);
      }
      assert field in {field} * overrides.Keys;
      ghost var was := View();
      result := Activate(overrides - {field}, writable);
      DropsExactly(rules, lower, was, expected, {field}, hasPath && writable, View());
      if result == Err(Rejected) {
        DropRejected(rules, lower, was, {field});
      }
    }

    method RemoveAuthentication(expected: nat, writable: bool) returns (result: Outcome<(Config, nat)>)
      modifies this
      ensures View() == Dropped(rules, lower, old(View()), expected, {Username, Password}, hasPath && writable)
      ensures result.Ok? <==> revision == old(revision) + 1
      ensures result.Ok? ==> Drops(rules, lower, old(View()), {Username, Password}, View())
      ensures result.Err? ==> View() == old(View())
      ensures result == Err(RevisionConflict) <==> expected != old(revision)
      ensures result == Err(NotExist) <==> expected == old(revision) && !(Username in old(overrides) || Password in old(overrides))
      ensures result == Err(PersistFailed) ==> !hasPath || !writable
      ensures result == Err(Rejected) ==> forall now :: !Drops(rules, lower, old(View()), {Username, Password}, now)
      ensures result.Ok? ==> result.value == (effective, revision)
    {
      if expected != revision {
        return Err(RevisionConflict);
      }
      var next := overrides;
      var removed := false;
      for i := 0 to 2
        invariant next == overrides - (if i == 0 then {} else if i == 1 then {Username} else {Username, Password})
        invariant removed <==> (i > 0 && Username in overrides) || (i > 1 && Password in overrides)
      {
        var field := if i == 0 then Username else Password;
        if field in next {
          next := next - {field};
          removed := true;
        }
      }
      if !removed {
        assert {Username, Password} * overrides.Keys == {};
        return Err(NotExist);
      }
      assert {Username, Password} * overrides.Keys != {} by {
        assert Username in {Username, Password} && Password in {Username, Password};
      }
      ghost var was := View();
      result := Activate(next, writable);
      DropsExactly(rules, lower, was, expected, {Username, Password}, hasPath && writable, View());
      if result == Err(Rejected) {
        DropRejected(rules, lower, was, {Username, Password});
      }
    }
  }
}
