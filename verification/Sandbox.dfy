/** Running an analyzer under a deadline: the capped reader of one stream, and the loop that waits for the process. */
module Sandbox {
  import opened Wrappers

  // ----- The capped reader

  newtype Byte = x: int | 0 <= x < 256

  /** What the reads deliver up to the end of the stream, which an empty answer announces. */
  function Delivered(answers: seq<seq<Byte>>): seq<Byte> {
    if answers == [] || answers[0] == [] then [] else answers[0] + Delivered(answers[1..])
  }

  function FirstBytes(s: seq<Byte>, cap: nat): seq<Byte> { if |s| > cap then s[..cap] else s }

  /** Past the given answers the stream is at its end. */
  function Answer(answers: seq<seq<Byte>>, k: nat): seq<Byte> { if k < |answers| then answers[k] else [] }

  /** However the stream is cut into answers: its first `cap` bytes, and whether there were more. */
  method ReadCapped(answers: seq<seq<Byte>>, cap: nat) returns (captured: seq<Byte>, truncated: bool)
    ensures captured == FirstBytes(Delivered(answers), cap)
    ensures truncated <==> |Delivered(answers)| > cap
  {
    captured := [];
    var total, k := 0, 0;
    assert answers[0..] == answers;
    while true
      invariant k <= |answers| && total == |captured| <= cap
      invariant Delivered(answers) == captured + Delivered(answers[k..])
      decreases |answers| - k
    {
      var chunk := Answer(answers, k);
      if chunk == [] {
        assert captured + [] == captured;
        return captured, false;
      }
      assert answers[k..][1..] == answers[k + 1..];
      var rest := Delivered(answers[k + 1..]);
      assert captured + (chunk + rest) == captured + chunk + rest;
      total := total + |chunk|;
      if total > cap {
        var overflow := total - cap;
        CutInside(captured, chunk, rest, cap);
        return captured + chunk[..|chunk| - overflow], true;
      }
      captured, k := captured + chunk, k + 1;
    }
  }

  lemma CutInside(before: seq<Byte>, chunk: seq<Byte>, rest: seq<Byte>, cap: nat)
    requires |before| <= cap < |before| + |chunk|
    ensures (before + chunk + rest)[..cap] == before + chunk[..cap - |before|]
  {
  }

  /** Cutting one answer in two changes nothing about what is delivered, so nothing about what is captured. */
  lemma {:induction false} RecuttingKeepsTheStream(before: seq<seq<Byte>>, x: seq<Byte>, y: seq<Byte>,
                                                   after: seq<seq<Byte>>)
    requires x != [] && y != []
    ensures Delivered(before + [x, y] + after) == Delivered(before + [x + y] + after)
    decreases |before|
  {
    if before == [] {
      assert ([x + y] + after)[1..] == after && ([x, y] + after)[1..] == [y] + after && ([y] + after)[1..] == after;
      assert before + [x, y] + after == [x, y] + after && before + [x + y] + after == [x + y] + after;
      assert x + (y + Delivered(after)) == x + y + Delivered(after);
    } else {
      assert (before + [x, y] + after)[1..] == before[1..] + [x, y] + after;
      assert (before + [x + y] + after)[1..] == before[1..] + [x + y] + after;
      RecuttingKeepsTheStream(before[1..], x, y, after);
    }
  }

  // ----- The wait loop

  datatype Task = Stdout | Stderr | Exit

  /** When each task is done, if ever, and whether each stream then had more than its cap. */
  datatype World = World(exitAt: Option<real>, stdoutAt: Option<real>, stderrAt: Option<real>, stdoutCut: bool,
                         stderrCut: bool)

  predicate DoneBy(w: World, task: Task, t: real) {
    var at := match task case Exit => w.exitAt case Stdout => w.stdoutAt case Stderr => w.stderrAt;
    at.Some? && at.value <= t
  }

  predicate CapHitBy(w: World, t: real) {
    (DoneBy(w, Stdout, t) && w.stdoutCut) || (DoneBy(w, Stderr, t) && w.stderrCut)
  }

  /**
    * The event loop's answers: when a wait on these tasks with this timeout returns, and what a clock reads that cannot
    * read earlier than the last moment known.
    */
  datatype Scheduler = Scheduler(wake: (nat, real, set<Task>, real) -> real, clock: (nat, real) -> real)

  /** A wait returns once one of its tasks is done or its timeout is over, within `lag` of the first of these. */
  ghost predicate WaitIsFaithful(s: Scheduler, w: World, lag: real, k: nat, now: real, tasks: set<Task>,
                                 timeout: real) {
    var t := s.wake(k, now, tasks, timeout);
    && now <= t <= now + timeout + lag
    && (t >= now + timeout || exists task | task in tasks :: DoneBy(w, task, t))
    && forall task, c | task in tasks && DoneBy(w, task, c) :: t <= Most(now, c) + lag
  }

  ghost predicate IsFaithful(s: Scheduler, w: World, lag: real) {
    && lag >= 0.0
    && (forall k: nat, now :: now <= s.clock(k, now) <= now + lag)
    && forall k: nat, now, tasks, timeout | timeout > 0.0 && tasks != {} ::
       WaitIsFaithful(s, w, lag, k, now, tasks, timeout)
  }

  const STREAM_DRAIN_GRACE := 2.0

  function Least(a: real, b: real): real { if a <= b then a else b }

  function Most(a: real, b: real): real { if a >= b then a else b }

  function EffectiveDeadline(deadline: real, capHitAt: Option<real>): real {
    if capHitAt.Some? then Least(deadline, capHitAt.value + STREAM_DRAIN_GRACE) else deadline
  }

  lemma FewerPending(before: set<Task>, after: set<Task>, task: Task)
    requires after <= before && task in before && task !in after
    ensures |after| < |before|
  {
    assert before == after + (before - after);
    assert task in before - after;
  }

  /**
    * `seenAt` is the moment whose state the last wait reported; every task starts with the loop. The verdict is exactly
    * whether the exit had been reported by then. A process is given up on only at its deadline, or when the grace after
    * a noticed cap hit is over; the loop ends within the scheduling lag of that moment, and within the lag of the exit
    * if that comes first; and it never takes more than four waits.
    */
  method WaitForExit(w: World, s: Scheduler, start: real, timeout: real, ghost lag: real)
    returns (timedOut: bool, seenAt: real, stoppedAt: real, capHitAt: Option<real>, waits: nat)
    requires IsFaithful(s, w, lag) && forall task :: !DoneBy(w, task, start)
    ensures start <= seenAt <= stoppedAt
    ensures timedOut <==> !DoneBy(w, Exit, seenAt)
    ensures timedOut ==> stoppedAt >= start + timeout || (capHitAt.Some? && stoppedAt >= capHitAt.value + 2.0)
    ensures stoppedAt <= Most(start, start + timeout) + 3.0 * lag
    ensures capHitAt.Some? ==> start <= capHitAt.value <= stoppedAt
    ensures capHitAt.Some? ==>
      (w.stdoutCut && DoneBy(w, Stdout, capHitAt.value)) || (w.stderrCut && DoneBy(w, Stderr, capHitAt.value))
    ensures capHitAt.Some? ==> stoppedAt <= capHitAt.value + 2.0 + 2.0 * lag
    ensures capHitAt.None? && timedOut ==>
      !(w.stdoutCut && DoneBy(w, Stdout, seenAt)) && !(w.stderrCut && DoneBy(w, Stderr, seenAt))
    ensures forall c | DoneBy(w, Exit, c) :: stoppedAt <= Most(start, c) + 3.0 * lag
    ensures waits <= 4
  {
    var deadline, pending: set<Task> := start + timeout, {Stdout, Stderr, Exit};
    capHitAt, waits, seenAt := None, 0, start;
    var now := start;
    while pending != {}
      invariant start <= seenAt <= now <= seenAt + lag && now <= Most(start, deadline) + 2.0 * lag
      invariant Exit in pending && forall task :: task in pending <==> !DoneBy(w, task, seenAt)
      invariant capHitAt.None? ==> !CapHitBy(w, seenAt)
      invariant capHitAt.Some? ==> CapHitBy(w, capHitAt.value) && start <= capHitAt.value <= now
      invariant capHitAt.Some? ==> now <= capHitAt.value + STREAM_DRAIN_GRACE + lag
      invariant waits + |pending| <= 3 || (now >= EffectiveDeadline(deadline, capHitAt) && waits + |pending| <= 4)
      decreases |pending|, now < EffectiveDeadline(deadline, capHitAt)
    {
      var effectiveDeadline := EffectiveDeadline(deadline, capHitAt);
      now := s.clock(2 * waits, now);
      var remaining := effectiveDeadline - now;
      if remaining <= 0.0 {
        break;
      }
      seenAt := s.wake(waits, now, pending, remaining);
      assert WaitIsFaithful(s, w, lag, waits, now, pending, remaining);
      now, waits := seenAt, waits + 1;
      ghost var before := pending;
      pending := set task | task in pending && !DoneBy(w, task, seenAt);
      if DoneBy(w, Exit, seenAt) {
        break;
      }
      if task :| task in before && task !in pending {
        FewerPending(before, pending, task);
      } else {
        assert pending == before;
      }
      if capHitAt.None? && CapHitBy(w, seenAt) {
        now := s.clock(2 * waits - 1, now);
        capHitAt := Some(now);
      }
    }
    stoppedAt := now;
    timedOut := !DoneBy(w, Exit, seenAt);
  }
}
