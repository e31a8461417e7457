/**
 * The batch progress shown by the main window: the progress bar's value and
 * maximum, whether the convert button is enabled, and the status-bar message.
 * These functions state what `Ui.convert_button_pressed` and
 * `Ui.thread_complete` do to that state; the `Ui` class is proved against them.
 */
module Progress {
  import opened Worker

  /** The status-bar messages: none, "converting...", "all files converted." */
  datatype Status = Blank | Converting | AllConverted

  datatype Progress = Progress(value: int, maximum: int, enabled: bool, status: Status)

  /** A batch of `n` jobs starts: maximum `n`, value 0, button disabled, "converting...". */
  function Started(n: nat): (r: Progress)
    ensures n >= 1 ==> InBatch(r, n)
  {
    Progress(0, n, false, Converting)
  }

  /**
   * `Ui.thread_complete`: one more job finished; when the value reaches the
   * maximum the button is enabled again and "all files converted." is shown.
   */
  function Completed(p: Progress): (r: Progress)
    ensures r.value == p.value + 1 && r.maximum == p.maximum
    ensures r.value == r.maximum ==> r.enabled && r.status == AllConverted
    ensures r.value != r.maximum ==> r.enabled == p.enabled && r.status == p.status
  {
    var v := p.value + 1;
    if v == p.maximum then Progress(v, p.maximum, true, AllConverted)
    else p.(value := v)
  }

  /** `k` job completions in a row. */
  function CompletedTimes(p: Progress, k: nat): (r: Progress)
    ensures r.value == p.value + k && r.maximum == p.maximum
  {
    if k == 0 then p else Completed(CompletedTimes(p, k - 1))
  }

  /**
   * The effect of a worker's signals on the window: only `finished` is
   * connected (to `Ui.thread_complete`); `result` and `error` have no slot.
   */
  function Deliver(p: Progress, signals: seq<Signal>): (r: Progress)
    ensures r == CompletedTimes(p, CountFinished(signals))
  {
    if signals == [] then p
    else
      var init := signals[..|signals| - 1];
      var q := Deliver(p, init);
      assert signals == init + [signals[|signals| - 1]];
      CountFinishedAppend(init, signals[|signals| - 1]);
      if signals[|signals| - 1].Finished? then Completed(q) else q
  }

  /**
   * A batch of `n >= 1` jobs after `k <= n` completions: the value is `k`,
   * and the button is enabled and "all files converted." shown exactly when
   * `k == n`, so the message appears once, at the last completion.
   */
  lemma {:induction false} BatchProgress(n: nat, k: nat)
    requires 1 <= n && k <= n
    ensures CompletedTimes(Started(n), k).value == k
    ensures CompletedTimes(Started(n), k).maximum == n
    ensures CompletedTimes(Started(n), k).enabled <==> k == n
    ensures CompletedTimes(Started(n), k).status == (if k == n then AllConverted else Converting)
  {
    if k > 0 {
      BatchProgress(n, k - 1);
    }
  }

  /**
   * The state of the window while `pending` jobs of a batch are still to
   * finish: the button is disabled exactly while some are, and the value plus
   * the pending jobs make up the maximum.
   */
  ghost predicate InBatch(p: Progress, pending: nat)
  {
    && (p.enabled <==> pending == 0)
    && (pending > 0 ==> 0 <= p.value && p.value + pending == p.maximum && p.status == Converting)
  }

  /** A completion while jobs are pending keeps the invariant with one job fewer. */
  lemma CompletedInBatch(p: Progress, pending: nat)
    requires InBatch(p, pending) && pending > 0
    ensures InBatch(Completed(p), pending - 1)
    ensures pending == 1 ==> Completed(p).status == AllConverted
  {
  }

  /** A failed job counts: the signals of one run advance the progress exactly once. */
  lemma FailedJobCounts(p: Progress, outcome: FnOutcome)
    ensures Deliver(p, Run(outcome)) == Completed(p)
  {
    RunSignalsOnce(outcome);
  }

  /**
   * The window after each worker of `outcomes`, in order, has delivered its
   * signals: whatever each function did, every worker counts exactly once.
   */
  function DeliverRuns(p: Progress, outcomes: seq<FnOutcome>): (r: Progress)
    ensures r == CompletedTimes(p, |outcomes|)
  {
    if outcomes == [] then p
    else
      var q := DeliverRuns(p, outcomes[..|outcomes| - 1]);
      FailedJobCounts(q, outcomes[|outcomes| - 1]);
      Deliver(q, Run(outcomes[|outcomes| - 1]))
  }

  /**
   * Whatever each job's function did (returned or raised), the workers of a
   * batch of `n >= 1` jobs bring the window to the end of the batch: value
   * `n`, button enabled, "all files converted." shown.
   */
  lemma {:induction false} BatchEndsWhateverOutcomes(n: nat, outcomes: seq<FnOutcome>)
    requires 1 <= n && |outcomes| == n
    ensures DeliverRuns(Started(n), outcomes) == Progress(n, n, true, AllConverted)
  {
    BatchProgress(n, n);
  }
}
