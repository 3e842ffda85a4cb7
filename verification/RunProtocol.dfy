/**
  What one exchange may do to the stores, the event bus and its reservation.
  Intake.Pipeline and Intake.UdpIntake are proved to keep to it; Lifecycle builds on it.
 */
module RunProtocol {
  import opened Common
  import opened Capture

  /** A commit that is refused leaves nothing with the writer. */
  datatype Effect =
    | Saved(x: Exchange)
    | Published(id: ID, revision: nat)
    | Committed(x: Exchange, accepted: bool)
    | Abandoned

  datatype Reservation = NotHeld | Held | Resolved

  /** `saved` is the record last saved, `published` the highest revision published so far. */
  datatype Phase = Phase(saved: Option<Exchange>, published: nat, reservation: Reservation)

  function Begin(held: bool): Phase {
    Phase(None, 0, if held then Held else NotHeld)
  }

  /** A first record: an HTTP exchange being received, or a datagram that is already complete. */
  predicate Fresh(x: Exchange) {
    && x.revision == 1 && (x.monotonic.Some? <==> x.transport.UDP?)
    && if IsTerminal(x.state) then x.completed == Some(x.started) else x.state.Receiving? && x.completed.None?
  }

  /** A live record moves on by one revision; a terminal one only changes its persistence status. */
  predicate Succeeds(x: Exchange, y: Exchange) {
    && y.id == x.id && y.started == x.started && y.monotonic == x.monotonic
    && if IsTerminal(x.state) then y == x.(persistence := y.persistence)
       else
         && y.revision == x.revision + 1
         && (y.state == x.state || ValidTransition(x.state, y.state))
         && (y.completed.Some? <==> IsTerminal(y.state))
  }

  predicate Accepts(p: Phase, e: Effect) {
    match e
    case Saved(y) => if p.saved.None? then Fresh(y) && !p.reservation.Resolved? else Succeeds(p.saved.value, y)
    case Published(id, revision) =>
      p.saved.Some? && id == p.saved.value.id && p.published < revision == p.saved.value.revision
    case Committed(x, _) => p.reservation.Held? && p.saved == Some(x) && IsTerminal(x.state)
    case Abandoned => p.reservation.Held? && p.saved.None?
  }

  function After(p: Phase, e: Effect): Phase {
    match e
    case Saved(y) => p.(saved := Some(y))
    case Published(_, revision) => p.(published := revision)
    case Committed(_, _) => p.(reservation := Resolved)
    case Abandoned => p.(reservation := Resolved)
  }

  function Play(first: Phase, effects: seq<Effect>): Option<Phase> {
    if effects == [] then Some(first)
    else
      var n := |effects| - 1;
      match Play(first, effects[..n])
      case None => None
      case Some(p) => if Accepts(p, effects[n]) then Some(After(p, effects[n])) else None
  }

  /** A run is over when its record is terminal, if it has one, and no reservation is left. */
  predicate Finished(p: Phase) {
    !p.reservation.Held? && (p.saved.Some? ==> IsTerminal(p.saved.value.state))
  }

  // ------------------------------------------------------------------
  // What the protocol means
  // ------------------------------------------------------------------

  /** How often the saved record turns terminal. */
  function TerminalSaves(effects: seq<Effect>, before: bool): nat {
    if effects == [] then 0
    else
      var e := effects[0];
      if e.Saved? then (if !before && IsTerminal(e.x.state) then 1 else 0) + TerminalSaves(effects[1..], IsTerminal(e.x.state))
      else TerminalSaves(effects[1..], before)
  }

  function Commits(effects: seq<Effect>): seq<Exchange> {
    if effects == [] then []
    else
      var n := |effects| - 1;
      Commits(effects[..n]) + (if effects[n].Committed? then [effects[n].x] else [])
  }

  predicate TerminalNow(p: Phase) {
    p.saved.Some? && IsTerminal(p.saved.value.state)
  }

  lemma PlayFront(first: Phase, effects: seq<Effect>, rest: seq<Effect>)
    requires Play(first, effects + rest).Some?
    ensures Play(first, effects).Some?
    decreases |rest|
  {
    if rest == [] {
      assert effects + rest == effects;
    } else {
      var n := |rest| - 1;
      assert (effects + rest)[..|effects| + n] == effects + rest[..n];
      PlayFront(first, effects, rest[..n]);
    }
  }

  lemma PlayHead(first: Phase, effects: seq<Effect>)
    requires effects != [] && Play(first, effects).Some?
    ensures Accepts(first, effects[0])
    ensures Play(After(first, effects[0]), effects[1..]) == Play(first, effects)
    decreases |effects|
  {
    var n := |effects| - 1;
    if n == 0 {
      assert effects[1..] == [] && effects[..0] == [];
    } else {
      PlayHead(first, effects[..n]);
      assert effects[..n][1..] == effects[1..][..n - 1];
    }
  }

  /** A run turns terminal at most once, and exactly once when it ends with a terminal record. */
  lemma {:induction false} OneTerminalTransition(first: Phase, effects: seq<Effect>)
    requires Play(first, effects).Some?
    ensures TerminalSaves(effects, TerminalNow(first))
         == (if TerminalNow(Play(first, effects).value) then 1 else 0) - (if TerminalNow(first) then 1 else 0)
    decreases |effects|
  {
    if effects != [] {
      PlayHead(first, effects);
      OneTerminalTransition(After(first, effects[0]), effects[1..]);
    }
  }

  ghost predicate IsPublish(effects: seq<Effect>, i: nat) {
    i < |effects| && effects[i].Published?
  }

  lemma {:induction false} PublishedSoFar(first: Phase, effects: seq<Effect>, i: nat)
    requires Play(first, effects).Some? && IsPublish(effects, i)
    ensures effects[i].revision <= Play(first, effects).value.published
    ensures first.published < effects[i].revision
    decreases |effects|
  {
    var n := |effects| - 1;
    if i < n {
      PublishedSoFar(first, effects[..n], i);
    } else {
      PublishedGrows(first, effects[..n]);
    }
  }

  lemma {:induction false} PublishedGrows(first: Phase, effects: seq<Effect>)
    requires Play(first, effects).Some?
    ensures first.published <= Play(first, effects).value.published
    decreases |effects|
  {
    if effects != [] {
      PublishedGrows(first, effects[..|effects| - 1]);
    }
  }

  /** A run publishes strictly increasing revisions. */
  lemma PublishedRevisionsIncrease(first: Phase, effects: seq<Effect>, i: nat, j: nat)
    requires Play(first, effects).Some?
    requires i < j && IsPublish(effects, i) && IsPublish(effects, j)
    ensures effects[i].revision < effects[j].revision
  {
    assert effects[..j + 1] + effects[j + 1..] == effects;
    PlayFront(first, effects[..j + 1], effects[j + 1..]);
    assert effects[..j + 1][..j] == effects[..j];
    PublishedSoFar(first, effects[..j], i);
  }

  /** Whatever a run publishes or commits, it has saved before, and saved last. */
  lemma {:induction false} SavedFirst(first: Phase, effects: seq<Effect>, i: nat)
    requires Play(first, effects).Some? && i < |effects| && first.saved.None?
    requires effects[i].Published? || effects[i].Committed?
    ensures exists j :: 0 <= j < i && effects[j].Saved? && LastSave(effects, j, i)
              && (effects[i].Published? ==> effects[j].x.id == effects[i].id && effects[j].x.revision == effects[i].revision)
              && (effects[i].Committed? ==> effects[j].x == effects[i].x && IsTerminal(effects[i].x.state))
  {
    assert effects[..i + 1] + effects[i + 1..] == effects;
    PlayFront(first, effects[..i + 1], effects[i + 1..]);
    assert effects[..i + 1][..i] == effects[..i];
    var j := LatestSave(first, effects[..i]);
    assert LastSave(effects, j, i);
  }

  ghost predicate LastSave(effects: seq<Effect>, j: nat, i: nat)
    requires i <= |effects|
  {
    forall k :: j < k < i ==> !effects[k].Saved?
  }

  lemma {:induction false} LatestSave(first: Phase, effects: seq<Effect>) returns (j: nat)
    requires Play(first, effects).Some? && first.saved.None? && Play(first, effects).value.saved.Some?
    ensures j < |effects| && effects[j].Saved? && Play(first, effects).value.saved == Some(effects[j].x)
    ensures forall k :: j < k < |effects| ==> !effects[k].Saved?
    decreases |effects|
  {
    var n := |effects| - 1;
    if effects[n].Saved? {
      j := n;
    } else {
      j := LatestSave(first, effects[..n]);
    }
  }

  /**
    A held reservation is committed exactly once in a run that ends with a saved record and nothing
    held, never otherwise.
   */
  lemma {:induction false} CommittedOnce(first: Phase, effects: seq<Effect>)
    requires Play(first, effects).Some? && first.saved.None? && !first.reservation.Resolved?
    ensures var last := Play(first, effects).value;
            |Commits(effects)| == if last.reservation.Resolved? && last.saved.Some? then 1 else 0
    decreases |effects|
  {
    if effects != [] {
      CommittedOnce(first, effects[..|effects| - 1]);
    }
  }
}
