/**
  The stream-shutdown channels of the management plane under reloads,
  CloseStreams and Shutdown (internal/app/management.go). Closing a Go channel
  twice panics, and a channel never closed leaves its event streams running.
 */
module Streams {

  /** Channels are numbered in the order they are made. */
  type Channel = nat

  /** Who holds the transition mutex: nobody, a prepared plan, or an activation that has swapped but not yet closed. */
  datatype Holder = Free | Planned | Swapping(last: Channel, lastClosed: bool)

  /** `closes` logs every close of a channel. */
  datatype State = State(
    made: nat,
    current: Channel,
    streamClosed: bool,
    closed: bool,
    holder: Holder,
    closes: seq<Channel>)

  /** One step per critical section, in the order the code takes the two mutexes. */
  datatype Step =
    | Prepare
    | RefusePrepare
    | Abort
    | Swap
    | CloseLast
    | CloseStreams
    | Shutdown

  function Start(): State {
    State(1, 0, false, false, Free, [])
  }

  predicate Enabled(s: State, step: Step) {
    match step
    case Prepare => s.holder.Free? && !s.closed
    case RefusePrepare => s.holder.Free?
    case Abort => s.holder.Planned?
    case Swap => s.holder.Planned?
    case CloseLast => s.holder.Swapping?
    case CloseStreams => s.holder.Free?
    case Shutdown => s.holder.Free?
  }

  function Hushed(s: State): State {
    if s.streamClosed then s else s.(closes := s.closes + [s.current], streamClosed := true)
  }

  function Next(s: State, step: Step): State
    requires Enabled(s, step)
  {
    match step
    case Prepare => s.(holder := Planned)
    case RefusePrepare => s
    case Abort => s.(holder := Free)
    case Swap => s.(made := s.made + 1, current := s.made, streamClosed := false, holder := Swapping(s.current, s.streamClosed))
    case CloseLast =>
      s.(holder := Free, closes := if s.holder.lastClosed then s.closes else s.closes + [s.holder.last])
    case CloseStreams => Hushed(s)
    case Shutdown => Hushed(s.(closed := true))
  }

  ghost predicate Once(closes: seq<Channel>) {
    forall i, j :: 0 <= i < j < |closes| ==> closes[i] != closes[j]
  }

  /** The channel whose close an activation still owes, if any. */
  predicate Owed(s: State, c: Channel) {
    s.holder.Swapping? && c == s.holder.last && !s.holder.lastClosed
  }

  ghost predicate Inv(s: State) {
    && Once(s.closes)
    && s.current < s.made
    && (forall c :: c in s.closes ==> c < s.made)
    && (s.streamClosed <==> s.current in s.closes)
    && (forall c :: 0 <= c < s.made && c != s.current ==> (c in s.closes <==> !Owed(s, c)))
    && (s.holder.Swapping? ==> s.holder.last < s.made && s.holder.last != s.current)
    && (s.closed ==> s.holder.Free? && s.streamClosed)
  }

  lemma NextKeepsInv(s: State, step: Step)
    requires Inv(s) && Enabled(s, step)
    ensures Inv(Next(s, step))
  {
    match step
    case Swap =>
      assert s.made !in s.closes;
    case CloseLast =>
      if !s.holder.lastClosed {
        AppendOnce(s.closes, s.holder.last);
      }
    case CloseStreams =>
      if !s.streamClosed {
        AppendOnce(s.closes, s.current);
      }
    case Shutdown =>
      if !s.streamClosed {
        AppendOnce(s.closes, s.current);
      }
    case _ =>
  }

  lemma AppendOnce(closes: seq<Channel>, c: Channel)
    requires Once(closes) && c !in closes
    ensures Once(closes + [c])
    ensures forall d :: d in closes + [c] <==> d in closes || d == c
  {
  }

  ghost predicate IsRun(trace: seq<State>) {
    && trace != [] && trace[0] == Start()
    && forall i :: 0 <= i < |trace| - 1 ==> Follows(trace[i], trace[i + 1])
  }

  ghost predicate Follows(s: State, t: State) {
    exists step :: Enabled(s, step) && t == Next(s, step)
  }

  lemma {:induction false} RunKeepsInv(trace: seq<State>, i: nat)
    requires IsRun(trace) && i < |trace|
    ensures Inv(trace[i])
  {
    if i > 0 {
      RunKeepsInv(trace, i - 1);
      assert Follows(trace[i - 1], trace[i - 1 + 1]);
      var step :| Enabled(trace[i - 1], step) && trace[i] == Next(trace[i - 1], step);
      NextKeepsInv(trace[i - 1], step);
    }
  }

  /**
    Every channel is closed at most once, the flag is truthful, and outside an activation only the
    current one can be open.
   */
  lemma ClosedAtMostOnce(trace: seq<State>)
    requires IsRun(trace)
    ensures var s := trace[|trace| - 1];
            && Once(s.closes)
            && (s.streamClosed <==> s.current in s.closes)
            && (!s.holder.Swapping? ==> forall c :: 0 <= c < s.made && c != s.current ==> c in s.closes)
  {
    RunKeepsInv(trace, |trace| - 1);
  }

  lemma {:induction false} StaysClosed(trace: seq<State>, i: nat, j: nat)
    requires IsRun(trace) && i <= j < |trace| && trace[i].closed
    ensures trace[j].closed && trace[j].made == trace[i].made && trace[j].closes == trace[i].closes
  {
    if i < j {
      StaysClosed(trace, i, j - 1);
      RunKeepsInv(trace, j - 1);
      assert Follows(trace[j - 1], trace[j - 1 + 1]);
    }
  }

  /**
    After Shutdown every channel ever made has been closed exactly once, no
    reload can be prepared, and nothing more is made or closed.
   */
  lemma ShutdownIsFinal(trace: seq<State>, i: nat, j: nat)
    requires IsRun(trace) && i <= j < |trace| && trace[i].closed
    ensures var s := trace[j];
            && !Enabled(s, Prepare) && !Enabled(s, Swap) && !Enabled(s, CloseLast)
            && Once(s.closes) && (forall c :: 0 <= c < s.made <==> c in s.closes)
            && s.made == trace[i].made && s.closes == trace[i].closes
  {
    StaysClosed(trace, i, j);
    RunKeepsInv(trace, j);
  }

  // ------------------------------------------------------------------
  // The object
  // ------------------------------------------------------------------

  class ManagementStreams {
    var streamShutdown: Channel
    var streamClosed: bool
    var closed: bool
    var locked: bool
    var made: nat
    ghost var holder: Holder
    ghost var closes: seq<Channel>

    ghost function View(): State
      reads this
    {
      State(made, streamShutdown, streamClosed, closed, holder, closes)
    }

    ghost predicate Valid()
      reads this
    {
      Inv(View()) && (locked <==> !holder.Free?)
    }

    constructor ()
      ensures Valid() && View() == Start()
    {
      streamShutdown, streamClosed, closed, locked := 0, false, false, false;
      made, holder, closes := 1, Free, [];
    }

    /** close(channel), which panics on a channel already closed. */
    ghost method Close(c: Channel)
      requires c !in closes
      modifies this`closes
      ensures closes == old(closes) + [c]
    {
      closes := closes + [c];
    }

    method Prepare(binds: bool) returns (planned: bool)
      requires Valid() && !locked
      modifies this`locked, this`holder
      ensures Valid() && (planned <==> binds && !closed)
      ensures View() == Next(old(View()), if planned then Step.Prepare else RefusePrepare)
      ensures locked == planned && holder == if planned then Planned else Free
    {
      locked := true;
      if closed || !binds {
        locked := false;
        return false;
      }
      holder := Planned;
      NextKeepsInv(old(View()), Step.Prepare);
      return true;
    }

    method Abort()
      requires Valid() && holder.Planned?
      modifies this`locked, this`holder
      ensures Valid() && View() == Next(old(View()), Step.Abort)
      ensures !locked && holder.Free?
    {
      NextKeepsInv(View(), Step.Abort);
      locked := false;
      holder := Free;
    }

    /** The part of an activation inside the plane's mutex: a new channel becomes current. */
    method Swap() returns (last: Channel, lastClosed: bool)
      requires Valid() && holder.Planned?
      modifies this`streamShutdown, this`streamClosed, this`made, this`holder
      ensures Valid() && View() == Next(old(View()), Step.Swap) && holder == Swapping(last, lastClosed)
      ensures last == old(streamShutdown) && lastClosed == old(streamClosed)
      ensures streamShutdown == old(made) && made == old(made) + 1 && !streamClosed
    {
      NextKeepsInv(View(), Step.Swap);
      last, lastClosed := streamShutdown, streamClosed;
      var shutdown := NewChannel();
      streamShutdown := shutdown;
      streamClosed := false;
      holder := Swapping(last, lastClosed);
    }

    method NewChannel() returns (c: Channel)
      modifies this`made
      ensures c == old(made) && made == old(made) + 1
    {
      c := made;
      made := made + 1;
    }

    /** The rest of it: the old channel is closed unless it was closed before the swap. */
    method CloseLast(last: Channel, lastClosed: bool)
      requires Valid() && holder == Swapping(last, lastClosed)
      modifies this`locked, this`holder, this`closes
      ensures Valid() && View() == Next(old(View()), Step.CloseLast)
      ensures closes == old(closes) + (if lastClosed then [] else [last]) && !locked && holder.Free?
    {
      NextKeepsInv(View(), Step.CloseLast);
      if !lastClosed {
        Close(last);
      }
      locked := false;
      holder := Free;
    }

    method CloseStreams()
      requires Valid() && !locked
      modifies this`streamClosed, this`closes
      ensures Valid() && View() == Next(old(View()), Step.CloseStreams)
      ensures streamClosed && closes == old(closes) + if old(streamClosed) then [] else [streamShutdown]
    {
      NextKeepsInv(View(), Step.CloseStreams);
      if !streamClosed {
        Close(streamShutdown);
        streamClosed := true;
      }
    }

    method Shutdown()
      requires Valid() && !locked
      modifies this`streamClosed, this`closes, this`closed
      ensures Valid() && View() == Next(old(View()), Step.Shutdown)
      ensures closed && streamClosed && closes == old(closes) + if old(streamClosed) then [] else [streamShutdown]
    {
      NextKeepsInv(View(), Step.Shutdown);
      closed := true;
      if !streamClosed {
        Close(streamShutdown);
        streamClosed := true;
      }
    }
  }
}
