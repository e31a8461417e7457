/**
 * The ffmpeg process that `Ui.convert` starts, seen only through the
 * operations the converter uses on it (`poll`, `terminate`, `wait`), and the
 * loop that waits for it to end while watching the quit flag.
 */
module ProcessPoll {

  /** Running, ended by itself with an exit status, or ended by the termination signal. */
  datatype ProcState = Running | Exited(code: int) | Terminated

  /** What the waiting loop does, in order: the process operations and `time.sleep(1)`. */
  datatype Step = Poll | Terminate | Wait | Sleep

  /**
   * An external process. `remaining` is how many one-second sleeps it still
   * needs before it ends by itself with status `exitCode`; `steps` records
   * what was done to it and between its polls.
   */
  class Process {
    var state: ProcState
    var remaining: nat
    var signalled: bool
    const exitCode: int
    var steps: seq<Step>

    ghost predicate Valid()
      reads this
    {
      state.Running? <==> remaining > 0
    }

    /** How the process ends: by the signal once it was sent one, else by itself. */
    function EndState(): (r: ProcState)
      reads this
    {
      if signalled then Terminated else Exited(exitCode)
    }

    constructor (work: nat, code: int)
      ensures Valid() && !signalled && steps == []
      ensures remaining == work && exitCode == code
      ensures state == if work > 0 then Running else Exited(code)
    {
      state := if work > 0 then Running else Exited(code);
      remaining := work;
      signalled := false;
      exitCode := code;
      steps := [];
    }

    /** `poll()`: whether the process is still running; it does not block. */
    method Poll() returns (running: bool)
      modifies this`steps
      ensures running == state.Running?
      ensures steps == old(steps) + [Step.Poll]
    {
      running := state.Running?;
      steps := steps + [Step.Poll];
    }

    /** `terminate()`: sends the termination signal to a running process; otherwise does nothing. */
    method Terminate()
      modifies this`signalled, this`steps
      ensures signalled == (old(signalled) || state.Running?)
      ensures steps == old(steps) + [Step.Terminate]
    {
      if state.Running? {
        signalled := true;
      }
      steps := steps + [Step.Terminate];
    }

    /** `wait()`: blocks until the process has ended and reaps it. */
    method Wait()
      requires Valid()
      modifies this`state, this`remaining, this`steps
      ensures Valid() && !state.Running?
      ensures state == if old(state).Running? then EndState() else old(state)
      ensures steps == old(steps) + [Step.Wait]
    {
      if state.Running? {
        state := EndState();
        remaining := 0;
      }
      steps := steps + [Step.Wait];
    }

    /** `time.sleep(1)` in the waiting loop: the process runs for one more second. */
    method Sleep()
      requires Valid()
      modifies this`state, this`remaining, this`steps
      ensures Valid()
      ensures old(state).Running? ==> remaining == old(remaining) - 1
      ensures state == if old(state).Running? && remaining == 0 then EndState() else old(state)
      ensures steps == old(steps) + [Step.Sleep]
    {
      if state.Running? {
        remaining := remaining - 1;
        if remaining == 0 {
          state := EndState();
        }
      }
      steps := steps + [Step.Sleep];
    }
  }

  /** `k` rounds of a poll that finds the process running, followed by a sleep. */
  function SleepRounds(k: nat): (r: seq<Step>)
    ensures |r| == 2 * k
  {
    if k == 0 then [] else SleepRounds(k - 1) + [Poll, Sleep]
  }

  lemma {:induction false} SleepRoundsShape(k: nat)
    ensures forall i :: 0 <= i < 2 * k ==> SleepRounds(k)[i] == (if i % 2 == 0 then Poll else Sleep)
  {
    if k > 0 {
      SleepRoundsShape(k - 1);
    }
  }

  /**
   * The steps of the waiting loop of `Ui.convert` on a process that is
   * `running` and needs `n` more seconds, when the first `quitAt` reads of the
   * quit flag find it clear and every later read finds it set (the flag is
   * never cleared once `Ui.exit` sets it). The loop sleeps until the process
   * ends or the flag is seen set; in the second case it terminates and reaps
   * the process. The final poll is the one that finds it ended.
   */
  function PollTrace(running: bool, quitAt: nat, n: nat): (r: seq<Step>)
    ensures r != [] && r[|r| - 1] == Poll
  {
    if !running then [Poll]
    else if quitAt < n then SleepRounds(quitAt) + [Poll, Terminate, Wait, Poll]
    else SleepRounds(n) + [Poll]
  }

  /** How the waiting loop leaves a process that was in `state`, needed `n` more seconds and would end as `end`. */
  function FinalState(state: ProcState, end: ProcState, quitAt: nat, n: nat): (r: ProcState)
  {
    if !state.Running? then state
    else if quitAt < n then Terminated
    else end
  }

  /**
   * The waiting loop of `Ui.convert`: `while process.poll() is None`, terminate
   * and wait when `_QUIT` is set, otherwise sleep. `quitAt` is how many of the
   * loop's reads of the flag find it clear. The loop returns only once the
   * process has ended, having done exactly the steps of `PollTrace`.
   */
  method AwaitExit(p: Process, quitAt: nat)
    requires p.Valid()
    modifies p
    ensures p.Valid() && !p.state.Running?
    ensures p.steps == old(p.steps) + PollTrace(old(p.state).Running?, quitAt, old(p.remaining))
    ensures p.state == FinalState(old(p.state), old(p.EndState()), quitAt, old(p.remaining))
  {
    var running := p.Poll();
    var flagReads := 0;  // reads of `_QUIT` so far; the first `quitAt` find it clear
    while running
      invariant p.Valid()
      invariant running == p.state.Running?
      invariant running ==> flagReads <= quitAt && flagReads < old(p.remaining)
      invariant running ==> p.remaining == old(p.remaining) - flagReads
      invariant running ==> p.state == old(p.state) && p.signalled == old(p.signalled)
      invariant running ==> p.steps == old(p.steps) + SleepRounds(flagReads) + [Poll]
      invariant !running ==> p.steps == old(p.steps) + PollTrace(old(p.state).Running?, quitAt, old(p.remaining))
      invariant !running ==> p.state == FinalState(old(p.state), old(p.EndState()), quitAt, old(p.remaining))
      decreases p.remaining
    {
      ghost var before := p.steps;
      if flagReads >= quitAt {
        p.Terminate();
        p.Wait();
      } else {
        p.Sleep();
      }
      flagReads := flagReads + 1;
      running := p.Poll();
      if flagReads - 1 >= quitAt {
        assert p.steps == old(p.steps) + SleepRounds(quitAt) + [Poll, Terminate, Wait, Poll];
      } else {
        assert p.steps == before + [Step.Sleep, Step.Poll];
        assert p.steps == old(p.steps) + SleepRounds(flagReads) + [Poll];
      }
    }
  }

  /**
   * The loop terminates the process exactly when it is running and the quit
   * flag is seen before it ends by itself; once the flag is seen the loop
   * does not sleep again, and `terminate` is directly followed by `wait`.
   */
  lemma QuitTerminatesThenWaits(running: bool, quitAt: nat, n: nat)
    ensures Terminate in PollTrace(running, quitAt, n) <==> running && quitAt < n
    ensures Wait in PollTrace(running, quitAt, n) <==> running && quitAt < n
    ensures Sleep !in PollTrace(running, 0, n)
    ensures forall i :: 0 <= i < |PollTrace(running, quitAt, n)| && PollTrace(running, quitAt, n)[i] == Terminate ==>
      i + 1 < |PollTrace(running, quitAt, n)| && PollTrace(running, quitAt, n)[i + 1] == Wait
    ensures forall i :: 0 <= i < |PollTrace(running, quitAt, n)| && PollTrace(running, quitAt, n)[i] == Terminate ==>
      Sleep !in PollTrace(running, quitAt, n)[i..]
  {
    var t := PollTrace(running, quitAt, n);
    if running && quitAt < n {
      var s := SleepRounds(quitAt);
      SleepRoundsShape(quitAt);
      assert t == s + [Poll, Terminate, Wait, Poll];
      assert t[|s| + 1] == Terminate && t[|s| + 2] == Wait;
      assert forall i :: 0 <= i < |s| ==> t[i] == s[i];
      assert t[|s| + 1..] == [Terminate, Wait, Poll];
    } else if running {
      NoQuitSleepsUntilExit(running, quitAt, n);
    }
  }

  /**
   * When the quit flag is not seen before the process ends, the loop never
   * terminates it: it polls and sleeps once per second the process still
   * needs, then polls once more.
   */
  lemma NoQuitSleepsUntilExit(running: bool, quitAt: nat, n: nat)
    requires quitAt >= n
    ensures Terminate !in PollTrace(running, quitAt, n) && Wait !in PollTrace(running, quitAt, n)
    ensures |PollTrace(running, quitAt, n)| == (if running then 2 * n + 1 else 1)
    ensures forall i :: 0 <= i < |PollTrace(running, quitAt, n)| ==>
      PollTrace(running, quitAt, n)[i] == (if i % 2 == 0 then Poll else Sleep)
  {
    if running {
      var t := PollTrace(running, quitAt, n);
      SleepRoundsShape(n);
      assert t == SleepRounds(n) + [Poll];
    }
  }
}
