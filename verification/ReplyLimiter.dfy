/** The fixed-window reply limiter of a UDP session over whole runs (internal/app/udp_sessions.go). */
module ReplyLimiter {

  /** Times are nanoseconds of one monotone clock. */
  const SECOND: int := 1_000_000_000

  datatype Limits = Limits(maxReplies: nat, maxBytes: nat, maxDatagram: nat)

  datatype Window = Window(start: int, replies: int, bytes: int)

  datatype Verdict = Allowed | RateLimited | ByteLimited

  datatype Reply = Reply(time: int, size: nat)

  function Rolled(w: Window, now: int): Window {
    if now - w.start >= SECOND then Window(now, 0, 0) else w
  }

  function Judge(w: Window, limits: Limits, reply: Reply): Verdict {
    var current := Rolled(w, reply.time);
    if current.replies >= limits.maxReplies then RateLimited
    else if current.bytes + reply.size > limits.maxBytes then ByteLimited
    else Allowed
  }

  function Charged(w: Window, limits: Limits, reply: Reply): Window {
    var current := Rolled(w, reply.time);
    if Judge(w, limits, reply).Allowed?
    then Window(current.start, current.replies + 1, current.bytes + reply.size)
    else current
  }

  /** The window after a run of replies, and the replies it let through. */
  datatype Outcome = Outcome(window: Window, accepted: seq<Reply>)

  function Answered(before: Outcome, limits: Limits, reply: Reply): Outcome {
    Outcome(Charged(before.window, limits, reply),
            before.accepted + (if Judge(before.window, limits, reply).Allowed? then [reply] else []))
  }

  function Run(w: Window, limits: Limits, replies: seq<Reply>): Outcome {
    if replies == [] then Outcome(w, [])
    else Answered(Run(w, limits, replies[..|replies| - 1]), limits, replies[|replies| - 1])
  }

  lemma RunAppended(w: Window, limits: Limits, replies: seq<Reply>, reply: Reply)
    ensures Run(w, limits, replies + [reply]) == Answered(Run(w, limits, replies), limits, reply)
  {
    assert (replies + [reply])[..|replies|] == replies;
  }

  /** The clock never goes back, and starts no earlier than the session. */
  ghost predicate Monotone(start: int, replies: seq<Reply>) {
    && (forall i :: 0 <= i < |replies| ==> start <= replies[i].time)
    && (forall i, j :: 0 <= i < j < |replies| ==> replies[i].time <= replies[j].time)
  }

  // ------------------------------------------------------------------
  // Counting replies, or their bytes, in a stretch of time
  // ------------------------------------------------------------------

  function Weight(r: Reply, inBytes: bool): nat {
    if inBytes then r.size else 1
  }

  function Cap(limits: Limits, inBytes: bool): nat {
    if inBytes then limits.maxBytes else limits.maxReplies
  }

  function Used(w: Window, inBytes: bool): int {
    if inBytes then w.bytes else w.replies
  }

  /** Accepted from `lo` on. */
  function Since(log: seq<Reply>, lo: int, inBytes: bool): nat {
    if log == [] then 0
    else
      var last := log[|log| - 1];
      Since(log[..|log| - 1], lo, inBytes) + (if lo <= last.time then Weight(last, inBytes) else 0)
  }

  /** Accepted in the half-open stretch from `lo` to `hi`. */
  function Within(log: seq<Reply>, lo: int, hi: int, inBytes: bool): nat {
    if log == [] then 0
    else
      var last := log[|log| - 1];
      Within(log[..|log| - 1], lo, hi, inBytes) + (if lo <= last.time < hi then Weight(last, inBytes) else 0)
  }

  lemma {:induction false} SinceSplits(log: seq<Reply>, lo: int, hi: int, inBytes: bool)
    ensures lo <= hi ==> Since(log, lo, inBytes) == Within(log, lo, hi, inBytes) + Since(log, hi, inBytes)
    ensures Within(log, lo, hi, inBytes) <= Since(log, lo, inBytes)
    ensures hi <= lo ==> Within(log, lo, hi, inBytes) == 0
  {
    if log != [] {
      SinceSplits(log[..|log| - 1], lo, hi, inBytes);
    }
  }

  lemma {:induction false} NoneSince(log: seq<Reply>, lo: int, inBytes: bool)
    requires forall r :: r in log ==> r.time < lo
    ensures Since(log, lo, inBytes) == 0
  {
    if log != [] {
      var n := |log| - 1;
      assert log[n] in log;
      assert forall r :: r in log[..n] ==> r in log;
      NoneSince(log[..n], lo, inBytes);
    }
  }

  lemma Appended(log: seq<Reply>, r: Reply, lo: int, hi: int, inBytes: bool)
    ensures Since(log + [r], lo, inBytes) == Since(log, lo, inBytes) + (if lo <= r.time then Weight(r, inBytes) else 0)
    ensures Within(log + [r], lo, hi, inBytes)
         == Within(log, lo, hi, inBytes) + (if lo <= r.time < hi then Weight(r, inBytes) else 0)
  {
    assert (log + [r])[..|log|] == log;
  }

  // ------------------------------------------------------------------
  // What every call keeps
  // ------------------------------------------------------------------

  /** Relative to any moment `t`; the last clause is the sliding bound itself. */
  ghost predicate Bounded(o: Outcome, limits: Limits, t: int, inBytes: bool) {
    var cap := Cap(limits, inBytes);
    var start := o.window.start;
    && (forall r :: r in o.accepted ==> r.time < start + SECOND)
    && Since(o.accepted, start, inBytes) == Used(o.window, inBytes) <= cap
    && (t > start - SECOND ==> Within(o.accepted, t, start, inBytes) <= cap)
    && Within(o.accepted, t, t + SECOND, inBytes) <= 2 * cap
  }

  lemma RollKeepsBounded(o: Outcome, limits: Limits, t: int, inBytes: bool, now: int)
    requires Bounded(o, limits, t, inBytes) && o.window.start <= now
    ensures Bounded(o.(window := Rolled(o.window, now)), limits, t, inBytes)
  {
    if now - o.window.start >= SECOND {
      NoneSince(o.accepted, now, inBytes);
      SinceSplits(o.accepted, t, now, inBytes);
      if t > now - SECOND {
        SinceSplits(o.accepted, o.window.start, t, inBytes);
      }
    }
  }

  lemma AcceptKeepsBounded(o: Outcome, limits: Limits, t: int, inBytes: bool, r: Reply)
    requires Bounded(o, limits, t, inBytes)
    requires o.window.start <= r.time < o.window.start + SECOND
    requires Used(o.window, inBytes) + Weight(r, inBytes) <= Cap(limits, inBytes)
    ensures var w := Window(o.window.start, o.window.replies + 1, o.window.bytes + r.size);
            Bounded(Outcome(w, o.accepted + [r]), limits, t, inBytes)
  {
    var start := o.window.start;
    Appended(o.accepted, r, start, t + SECOND, inBytes);
    Appended(o.accepted, r, t, start, inBytes);
    Appended(o.accepted, r, t, t + SECOND, inBytes);
    SinceSplits(o.accepted, t, t + SECOND, inBytes);
    SinceSplits(o.accepted, t, start, inBytes);
    SinceSplits(o.accepted, start, t, inBytes);
  }

  lemma AnswerKeepsBounded(o: Outcome, limits: Limits, t: int, inBytes: bool, r: Reply)
    requires Bounded(o, limits, t, inBytes) && o.window.start <= r.time
    ensures Bounded(Answered(o, limits, r), limits, t, inBytes)
    ensures o.window.start <= Answered(o, limits, r).window.start <= r.time
  {
    var rolled := o.(window := Rolled(o.window, r.time));
    RollKeepsBounded(o, limits, t, inBytes, r.time);
    if Judge(o.window, limits, r).Allowed? {
      AcceptKeepsBounded(rolled, limits, t, inBytes, r);
    } else {
      assert Answered(o, limits, r) == rolled;
    }
  }

  lemma {:induction false} RunBounded(w: Window, limits: Limits, replies: seq<Reply>, t: int, inBytes: bool)
    requires w.replies == 0 && w.bytes == 0 && Monotone(w.start, replies)
    ensures Bounded(Run(w, limits, replies), limits, t, inBytes)
    ensures replies == [] ==> Run(w, limits, replies).window.start == w.start
    ensures replies != [] ==> Run(w, limits, replies).window.start <= replies[|replies| - 1].time
  {
    if replies != [] {
      var n := |replies| - 1;
      RunBounded(w, limits, replies[..n], t, inBytes);
      assert n > 0 ==> replies[..n][n - 1].time <= replies[n].time;
      AnswerKeepsBounded(Run(w, limits, replies[..n]), limits, t, inBytes, replies[n]);
    }
  }

  /**
    Any one-second stretch of any run lets through at most twice the limit of
    replies and twice the limit of bytes; the current window never exceeds the
    limits themselves.
   */
  lemma AtMostTwiceTheLimit(start: int, limits: Limits, replies: seq<Reply>, t: int)
    requires Monotone(start, replies)
    ensures var o := Run(Window(start, 0, 0), limits, replies);
            && Within(o.accepted, t, t + SECOND, false) <= 2 * limits.maxReplies
            && Within(o.accepted, t, t + SECOND, true) <= 2 * limits.maxBytes
            && Since(o.accepted, o.window.start, false) <= limits.maxReplies
            && Since(o.accepted, o.window.start, true) <= limits.maxBytes
  {
    RunBounded(Window(start, 0, 0), limits, replies, t, false);
    RunBounded(Window(start, 0, 0), limits, replies, t, true);
  }

  /**
    Nothing is refused without need: a reply is let through exactly when what
    was accepted since its window began leaves room for it.
   */
  lemma RefusedExactly(start: int, limits: Limits, replies: seq<Reply>, reply: Reply)
    requires Monotone(start, replies + [reply])
    ensures var o := Run(Window(start, 0, 0), limits, replies);
            var since := Rolled(o.window, reply.time).start;
            Judge(o.window, limits, reply).Allowed?
            <==> (Since(o.accepted, since, false) + 1 <= limits.maxReplies
                  && Since(o.accepted, since, true) + reply.size <= limits.maxBytes)
  {
    var all := replies + [reply];
    assert forall i :: 0 <= i < |replies| ==> all[i] == replies[i];
    assert all[|replies|] == reply;
    var o := Run(Window(start, 0, 0), limits, replies);
    RunBounded(Window(start, 0, 0), limits, replies, start, false);
    RunBounded(Window(start, 0, 0), limits, replies, start, true);
    RollKeepsBounded(o, limits, start, false, reply.time);
    RollKeepsBounded(o, limits, start, true, reply.time);
  }

  /** `k` empty replies at one moment. */
  function Burst(time: int, k: nat): seq<Reply> {
    seq(k, _ => Reply(time, 0))
  }

  lemma OneMore(time: int, k: nat)
    requires k > 0
    ensures Burst(time, k) == Burst(time, k - 1) + [Reply(time, 0)]
  {
  }

  ghost predicate Fits(w: Window, limits: Limits, time: int, k: nat) {
    Rolled(w, time).replies + k <= limits.maxReplies && Rolled(w, time).bytes <= limits.maxBytes
  }

  /** `o` after `k` more empty replies at one moment, all let through. */
  function Topped(o: Outcome, time: int, k: nat): Outcome {
    if k == 0 then o
    else
      var w := Rolled(o.window, time);
      Outcome(w.(replies := w.replies + k), o.accepted + Burst(time, k))
  }

  lemma ToppedAgain(o: Outcome, limits: Limits, time: int, k: nat)
    requires k > 0 && Fits(o.window, limits, time, k)
    ensures Answered(Topped(o, time, k - 1), limits, Reply(time, 0)) == Topped(o, time, k)
  {
    OneMore(time, k);
    assert o.accepted + Burst(time, k) == o.accepted + Burst(time, k - 1) + [Reply(time, 0)];
    if k == 1 {
      assert o.accepted + Burst(time, 0) == o.accepted;
    }
  }

  /** A burst that fits the current window is let through whole. */
  lemma {:induction false} BurstPasses(w: Window, limits: Limits, replies: seq<Reply>, time: int, k: nat)
    requires Fits(Run(w, limits, replies).window, limits, time, k)
    ensures Run(w, limits, replies + Burst(time, k)) == Topped(Run(w, limits, replies), time, k)
  {
    if k == 0 {
      assert replies + Burst(time, 0) == replies;
    } else {
      BurstPasses(w, limits, replies, time, k - 1);
      OneMore(time, k);
      assert replies + Burst(time, k) == (replies + Burst(time, k - 1)) + [Reply(time, 0)];
      RunAppended(w, limits, replies + Burst(time, k - 1), Reply(time, 0));
      ToppedAgain(Run(w, limits, replies), limits, time, k);
    }
  }

  lemma {:induction false} BurstCount(log: seq<Reply>, time: int, k: nat, lo: int, hi: int)
    requires lo <= time < hi
    ensures Within(log + Burst(time, k), lo, hi, false) == Within(log, lo, hi, false) + k
  {
    if k == 0 {
      assert log + Burst(time, 0) == log;
    } else {
      BurstCount(log, time, k - 1, lo, hi);
      OneMore(time, k);
      assert log + Burst(time, k) == (log + Burst(time, k - 1)) + [Reply(time, 0)];
      Appended(log + Burst(time, k - 1), Reply(time, 0), lo, hi, false);
    }
  }

  function TwoBursts(n: nat): seq<Reply> {
    Burst(SECOND - 1, n) + Burst(SECOND, n)
  }

  lemma TwoBurstsPass(limits: Limits)
    ensures Run(Window(0, 0, 0), limits, TwoBursts(limits.maxReplies)).accepted == TwoBursts(limits.maxReplies)
  {
    var n := limits.maxReplies;
    var w := Window(0, 0, 0);
    var first := Burst(SECOND - 1, n);
    BurstPasses(w, limits, [], SECOND - 1, n);
    assert [] + first == first;
    if n == 0 {
      assert TwoBursts(n) == first;
    } else {
      BurstPasses(w, limits, first, SECOND, n);
    }
  }

  lemma TwoBurstsCount(n: nat)
    ensures Within(TwoBursts(n), SECOND - 1, 2 * SECOND - 1, false) == 2 * n
  {
    BurstCount([], SECOND - 1, n, SECOND - 1, 2 * SECOND - 1);
    assert [] + Burst(SECOND - 1, n) == Burst(SECOND - 1, n);
    BurstCount(Burst(SECOND - 1, n), SECOND, n, SECOND - 1, 2 * SECOND - 1);
  }

  /** The factor two is real: a run whose accepted replies reach it inside one second. */
  lemma TwiceTheLimitIsReached(limits: Limits)
    ensures Monotone(0, TwoBursts(limits.maxReplies))
    ensures Within(Run(Window(0, 0, 0), limits, TwoBursts(limits.maxReplies)).accepted,
                   SECOND - 1, 2 * SECOND - 1, false) == 2 * limits.maxReplies
  {
    TwoBurstsPass(limits);
    TwoBurstsCount(limits.maxReplies);
  }

  // ------------------------------------------------------------------
  // The session object
  // ------------------------------------------------------------------

  class UdpSession {
    const limits: Limits
    var windowStart: int
    var replies: int
    var bytes: int
    var dropped: nat
    var closed: bool
    ghost var accepted: seq<Reply>
    /** How often the upstream connection has been closed. */
    ghost var closes: nat

    ghost predicate Valid()
      reads this
    {
      closes == if closed then 1 else 0
    }

    ghost function Current(): Window
      reads this
    {
      Window(windowStart, replies, bytes)
    }

    constructor (limits: Limits, now: int)
      ensures Current() == Window(now, 0, 0) && dropped == 0 && !closed && accepted == []
      ensures Valid() && this.limits == limits
    {
      this.limits := limits;
      closes := 0;
      windowStart, replies, bytes, dropped, closed := now, 0, 0, 0, false;
      accepted := [];
    }

    method AllowReply(now: int, size: nat) returns (verdict: Verdict)
      modifies this`windowStart, this`replies, this`bytes, this`accepted
      ensures verdict == Judge(old(Current()), limits, Reply(now, size))
      ensures Current() == Charged(old(Current()), limits, Reply(now, size))
      ensures accepted == old(accepted) + if verdict.Allowed? then [Reply(now, size)] else []
      ensures var over := now - old(windowStart) >= 1_000_000_000;
              var count, sum := if over then 0 else old(replies), if over then 0 else old(bytes);
              && (verdict.RateLimited? <==> count >= limits.maxReplies)
              && (verdict.ByteLimited? <==> count < limits.maxReplies && sum + size > limits.maxBytes)
              && windowStart == (if over then now else old(windowStart))
              && replies == (if verdict.Allowed? then count + 1 else count)
              && bytes == (if verdict.Allowed? then sum + size else sum)
    {
      if now - windowStart >= SECOND {
        windowStart, replies, bytes := now, 0, 0;
      }
      if replies >= limits.maxReplies {
        return RateLimited;
      }
      if bytes + size > limits.maxBytes {
        return ByteLimited;
      }
      replies := replies + 1;
      bytes := bytes + size;
      accepted := accepted + [Reply(now, size)];
      return Allowed;
    }

    /** One turn of the receive loop: an upstream datagram is delivered or counted as dropped. */
    method Handle(now: int, size: nat) returns (delivered: bool)
      modifies this
      ensures closed == old(closed) && closes == old(closes)
      ensures delivered <==> size <= limits.maxDatagram && Judge(old(Current()), limits, Reply(now, size)).Allowed?
      ensures dropped == old(dropped) + if delivered then 0 else 1
      ensures accepted == old(accepted) + if delivered then [Reply(now, size)] else []
      ensures Current() == if size > limits.maxDatagram then old(Current()) else Charged(old(Current()), limits, Reply(now, size))
    {
      if size > limits.maxDatagram {
        dropped := dropped + 1;
        return false;
      }
      var verdict := AllowReply(now, size);
      if !verdict.Allowed? {
        dropped := dropped + 1;
        return false;
      }
      return true;
    }

    /** The whole receive loop: what it delivers is what a run of the limiter accepts. */
    method Receive(arrivals: seq<Reply>)
      requires replies == 0 && bytes == 0 && accepted == []
      modifies this
      ensures var fitting := Fitting(arrivals, limits);
              Outcome(Current(), accepted) == Run(old(Current()), limits, fitting)
      ensures dropped + |accepted| == old(dropped) + |arrivals|
    {
      ghost var w := Current();
      for i := 0 to |arrivals|
        invariant Outcome(Current(), accepted) == Run(w, limits, Fitting(arrivals[..i], limits))
        invariant dropped + |accepted| == old(dropped) + i
      {
        assert arrivals[..i + 1][..i] == arrivals[..i];
        RunAppended(w, limits, Fitting(arrivals[..i], limits), Reply(arrivals[i].time, arrivals[i].size));
        var delivered := Handle(arrivals[i].time, arrivals[i].size);
      }
      assert arrivals[..|arrivals|] == arrivals;
    }

    /** Idempotent: the connection is closed by the first call only. */
    method Close()
      requires Valid()
      modifies this`closed, this`closes
      ensures Valid() && closed
      ensures old(closed) ==> closes == old(closes)
    {
      if closed {
        return;
      }
      closed := true;
      closes := closes + 1;
    }
  }

  /** What reaches the limiter: of each arrival what fits a datagram, in the order of arrival. */
  lemma {:induction false} FittingArrivals(a: seq<Reply>, b: seq<Reply>, limits: Limits)
    ensures Fitting(a + b, limits) == Fitting(a, limits) + Fitting(b, limits)
    decreases |b|
  {
    if b == [] {
      assert a + b == a;
    } else {
      var n := |b| - 1;
      FittingArrivals(a, b[..n], limits);
      assert (a + b)[..|a| + n] == a + b[..n];
    }
  }

  lemma FittingOne(r: Reply, limits: Limits)
    ensures Fitting([r], limits) == if r.size > limits.maxDatagram then [] else [r]
  {
    assert [r][..0] == [] && Fitting([], limits) == [];
  }

  /** Oversized replies never reach the limiter. */
  function Fitting(arrivals: seq<Reply>, limits: Limits): seq<Reply> {
    if arrivals == [] then []
    else
      var last := arrivals[|arrivals| - 1];
      if last.size <= limits.maxDatagram then Fitting(arrivals[..|arrivals| - 1], limits) + [last]
      else Fitting(arrivals[..|arrivals| - 1], limits)
  }
}
