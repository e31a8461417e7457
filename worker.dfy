/**
 * `Worker.run`: runs the worker's function once and reports how it ended
 * through the signals of `WorkerSignals`.
 */
module Worker {

  /** How the worker's function ended: it returned (`Ui.convert` returns None), or it raised. */
  datatype FnOutcome = Returned | Raised(traceback: string)

  /** The three signals of `WorkerSignals`; `error` carries the formatted exception. */
  datatype Signal = Result | Error(traceback: string) | Finished

  /**
   * The signals `Worker.run` emits, in order: `error` when the function
   * raised, `result` otherwise, and `finished` in every case (the `finally`).
   */
  function Run(outcome: FnOutcome): (signals: seq<Signal>)
    ensures |signals| == 2 && signals[|signals| - 1] == Finished
    ensures signals[0].Error? <==> outcome.Raised?
    ensures signals[0].Result? <==> outcome.Returned?
    ensures outcome.Raised? ==> signals[0].traceback == outcome.traceback
  {
    match outcome
    case Returned => [Result, Finished]
    case Raised(tb) => [Error(tb), Finished]
  }

  /** How many `finished` signals a sequence holds. */
  function CountFinished(signals: seq<Signal>): (r: nat)
    ensures r <= |signals|
  {
    if signals == [] then 0
    else (if signals[0].Finished? then 1 else 0) + CountFinished(signals[1..])
  }

  /** How many `result` or `error` signals a sequence holds. */
  function CountReports(signals: seq<Signal>): (r: nat)
    ensures r + CountFinished(signals) == |signals|
  {
    if signals == [] then 0
    else (if signals[0].Finished? then 0 else 1) + CountReports(signals[1..])
  }

  /**
   * Whatever the function did, one run emits exactly one `finished` and
   * exactly one of `result` or `error`, and `finished` comes after it.
   */
  lemma RunSignalsOnce(outcome: FnOutcome)
    ensures CountFinished(Run(outcome)) == 1
    ensures CountReports(Run(outcome)) == 1
    ensures !Run(outcome)[0].Finished?
  {
    var s := Run(outcome);
    var tail := s[1..];
    assert tail == [Finished] && tail[1..] == [];
    assert CountFinished(tail) == 1 && CountReports(tail) == 0;
  }

  /** Appending one signal adds one to the count exactly when it is `finished`. */
  lemma {:induction false} CountFinishedAppend(s: seq<Signal>, x: Signal)
    ensures CountFinished(s + [x]) == CountFinished(s) + (if x.Finished? then 1 else 0)
  {
    if s != [] {
      assert (s + [x])[1..] == s[1..] + [x];
      CountFinishedAppend(s[1..], x);
    }
  }
}
