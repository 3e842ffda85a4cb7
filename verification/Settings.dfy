/**
  Runtime settings: UI overrides over a lower-priority configuration, with
  revisioned two-step updates (internal/config/config.go, internal/config/manager.go).
 */
module Settings {
  import opened Common

  /** The fields an override may set, in the order of knownOverrideFields; any other name is unknown. */
  datatype Field =
    | Mode | ManagementListen | TrafficListen | UpstreamUrl | UpstreamTimeout
    | CaptureStatus | CaptureHeaders | CaptureBody
    | CorsEnabled
    | RequestBodyBytes | ResponseBodyBytes | RequestHeaderBytes
    | ResponseHeaderBytes | ConcurrentExchanges | PreviewEnabled | PreviewBytes
    | MaxExchanges | StorageMode | SqlitePath | RetentionDays
    | Username | Password | SessionTtl | ShutdownTimeout
    | UdpEnabled | UdpListen | UdpMode | UdpUpstream | UdpMaxDatagramBytes | UdpMaxSessions
    | UdpSessionTtl | UdpCaptureResponse | UdpMaxReplies | UdpMaxReplyBytes
    | Unknown(name: string)

  datatype Value = Text(text: string) | Number(number: int) | Flag(flag: bool) | Headers(headers: map<string, seq<string>>)

  /** A YAML scalar or mapping, by its text. */
  type Node = string

  type Config = map<Field, Value>

  /** Decoding a null node leaves a scalar field as it was. */
  datatype Decoded = Keep | Set(value: Value)

  /** The parts of the configuration this model does not open: YAML decoding (None is an error) and validation. */
  datatype Rules = Rules(decode: (Field, Node) -> Option<Decoded>, valid: Config -> bool)

  // ------------------------------------------------------------------
  // Applying overrides
  // ------------------------------------------------------------------

  predicate Usable(rules: Rules, f: Field, node: Node) {
    !f.Unknown? && rules.decode(f, node).Some?
  }

  /** A field's value once its override, if it has one, is in force. */
  function Chosen(rules: Rules, cfg: Config, overrides: map<Field, Node>, f: Field): Value
    requires f in cfg
  {
    if f !in overrides then cfg[f]
    else
      match rules.decode(f, overrides[f])
      case Some(Set(v)) => v
      case _ => cfg[f]
  }

  ghost function Overlay(rules: Rules, cfg: Config, overrides: map<Field, Node>, fields: set<Field>): Config {
    map f | f in cfg :: if f in fields then Chosen(rules, cfg, overrides, f) else cfg[f]
  }

  /** The configuration with the overrides of some of the fields in force, or None: no order is involved. */
  ghost function ApplyTo(rules: Rules, cfg: Config, overrides: map<Field, Node>, fields: set<Field>): Option<Config> {
    if forall f :: f in overrides && f in fields ==> Usable(rules, f, overrides[f])
    then Some(Overlay(rules, cfg, overrides, fields))
    else None
  }

  ghost function Apply(rules: Rules, cfg: Config, overrides: map<Field, Node>): Option<Config> {
    ApplyTo(rules, cfg, overrides, overrides.Keys)
  }

  /** One turn of the source's loop over the override map. */
  function ApplyOne(rules: Rules, cfg: Config, f: Field, node: Node): Option<Config> {
    if f.Unknown? then None
    else
      match rules.decode(f, node)
      case None => None
      case Some(Keep) => Some(cfg)
      case Some(Set(v)) => if f in cfg then Some(cfg[f := v]) else Some(cfg)
  }

  /** The loop, visiting the overrides in a given order and stopping at the first error. */
  function ApplyInOrder(rules: Rules, cfg: Config, overrides: map<Field, Node>, order: seq<Field>): Option<Config>
    requires forall f :: f in order ==> f in overrides
  {
    if order == [] then Some(cfg)
    else
      var n := |order| - 1;
      assert forall f :: f in order[..n] ==> f in order;
      match ApplyInOrder(rules, cfg, overrides, order[..n])
      case None => None
      case Some(c) => ApplyOne(rules, c, order[n], overrides[order[n]])
  }

  lemma OneMoreOverride(rules: Rules, cfg: Config, overrides: map<Field, Node>, fields: set<Field>, f: Field)
    requires f in overrides && f !in fields
    ensures ApplyTo(rules, cfg, overrides, fields + {f})
         == match ApplyTo(rules, cfg, overrides, fields)
            case None => None
            case Some(c) => ApplyOne(rules, c, f, overrides[f])
  {
    var before, after := Overlay(rules, cfg, overrides, fields), Overlay(rules, cfg, overrides, fields + {f});
    if Usable(rules, f, overrides[f]) {
      var one := ApplyOne(rules, before, f, overrides[f]).value;
      assert one.Keys == after.Keys == cfg.Keys;
      assert forall g :: g in cfg ==> one[g] == after[g];
      assert one == after;
    }
  }

  lemma NothingApplied(rules: Rules, cfg: Config, overrides: map<Field, Node>)
    ensures ApplyTo(rules, cfg, overrides, {}) == Some(cfg)
  {
    assert Overlay(rules, cfg, overrides, {}) == cfg;
  }

  ghost predicate Distinct<T>(s: seq<T>) {
    forall i, j :: 0 <= i < j < |s| ==> s[i] != s[j]
  }

  ghost function Visited(order: seq<Field>): set<Field> {
    set f | f in order
  }

  lemma VisitedAppended(order: seq<Field>, f: Field)
    ensures Visited(order + [f]) == Visited(order) + {f}
  {
  }

  /** Success and result of applying overrides do not depend on the order of the map. */
  lemma {:induction false} OrderDoesNotMatter(rules: Rules, cfg: Config, overrides: map<Field, Node>, order: seq<Field>)
    requires Distinct(order) && forall f :: f in order ==> f in overrides
    ensures ApplyInOrder(rules, cfg, overrides, order) == ApplyTo(rules, cfg, overrides, Visited(order))
    ensures Visited(order) == overrides.Keys ==> ApplyInOrder(rules, cfg, overrides, order) == Apply(rules, cfg, overrides)
  {
    if order == [] {
      NothingApplied(rules, cfg, overrides);
      assert Visited(order) == {};
    } else {
      var n := |order| - 1;
      assert forall f :: f in order[..n] ==> f in order;
      OrderDoesNotMatter(rules, cfg, overrides, order[..n]);
      assert order == order[..n] + [order[n]];
      VisitedAppended(order[..n], order[n]);
      OneMoreOverride(rules, cfg, overrides, Visited(order[..n]), order[n]);
    }
  }

  /** An override that can be decoded: its value if it has one, and else what the field was. */
  predicate Decodes(rules: Rules, node: Node, f: Field, was: Value, now: Value) {
    && rules.decode(f, node).Some?
    && (rules.decode(f, node) == Some(Keep) ==> now == was)
    && (rules.decode(f, node).value.Set? ==> now == rules.decode(f, node).value.value)
  }

  /** Every override names a known field and can be decoded; the other fields are as they were. */
  ghost predicate PutsInForce(rules: Rules, cfg: Config, overrides: map<Field, Node>, effective: Config) {
    && effective.Keys == cfg.Keys
    && (forall f :: f in overrides ==> !f.Unknown? && rules.decode(f, overrides[f]).Some?)
    && (forall f :: f in cfg && f !in overrides ==> effective[f] == cfg[f])
    && (forall f :: f in cfg && f in overrides ==> Decodes(rules, overrides[f], f, cfg[f], effective[f]))
  }

  /** Overrides apply exactly when all of them are usable, and then decide their fields and no other. */
  lemma AppliesExactly(rules: Rules, cfg: Config, overrides: map<Field, Node>, effective: Config)
    ensures Apply(rules, cfg, overrides) == Some(effective) <==> PutsInForce(rules, cfg, overrides, effective)
    ensures Apply(rules, cfg, overrides).None?
       <==> exists f :: f in overrides && (f.Unknown? || rules.decode(f, overrides[f]).None?)
  {
    forall f | f in overrides ensures f in overrides.Keys && (Usable(rules, f, overrides[f])
                                  <==> !f.Unknown? && rules.decode(f, overrides[f]).Some?) {
    }
    var applied := Apply(rules, cfg, overrides);
    if applied.Some? {
      assert PutsInForce(rules, cfg, overrides, applied.value);
      if PutsInForce(rules, cfg, overrides, effective) {
        assert forall f :: f in cfg ==> effective[f] == applied.value[f];
        assert effective == applied.value;
      }
    }
  }

  /** applyOverrides: a loop over the map in whatever order it comes, stopping at the first error. */
  method ApplyOverrides(rules: Rules, cfg: Config, overrides: map<Field, Node>) returns (result: Option<Config>)
    ensures result == Apply(rules, cfg, overrides)
    ensures result.Some? ==> PutsInForce(rules, cfg, overrides, result.value)
    ensures result.None? <==> exists f :: f in overrides && (f.Unknown? || rules.decode(f, overrides[f]).None?)
  {
    var todo := overrides.Keys;
    var current := cfg;
    NothingApplied(rules, cfg, overrides);
    assert overrides.Keys - todo == {};
    while todo != {}
      invariant todo <= overrides.Keys
      invariant ApplyTo(rules, cfg, overrides, overrides.Keys - todo) == Some(current)
      decreases todo
    {
      var f :| f in todo;
      OneMoreOverride(rules, cfg, overrides, overrides.Keys - todo, f);
      assert overrides.Keys - (todo - {f}) == (overrides.Keys - todo) + {f};
      todo := todo - {f};
      var next := ApplyOne(rules, current, f, overrides[f]);
      if next.None? {
        assert !Usable(rules, f, overrides[f]);
        AppliesExactly(rules, cfg, overrides, cfg);
        return None;
      }
      current := next.value;
    }
    assert overrides.Keys - {} == overrides.Keys;
    AppliesExactly(rules, cfg, overrides, current);
    return Some(current);
  }

  /** What a prepare accepts: applicable overrides that give a valid configuration. */
  ghost function Candidate(rules: Rules, lower: Config, overrides: map<Field, Node>): Option<Config> {
    var applied := Apply(rules, lower, overrides);
    if applied.Some? && rules.valid(applied.value) then applied else None
  }
}
