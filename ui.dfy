/**
 * The main window's conversion logic, with the widgets reduced to the state
 * they hold: the chosen directories and entries, the progress bar's value and
 * maximum, the convert button's enabled flag, the status-bar message, the
 * thread pool's queue of submitted entries and the module-level quit flag.
 */
module MainWindow {
  import opened PathNames
  import opened Listing
  import opened Worker
  import opened Progress
  import opened ProcessPoll

  /** The two paths one conversion hands to ffmpeg. */
  datatype Job = Job(input: string, output: string)

  /**
   * A stand-in for the traceback a worker reports when ffmpeg cannot be
   * started: the source formats whatever exception starting it raised.
   */
  const SpawnFailure: string := "FileNotFoundError: ffmpeg"

  class Ui {
    var directory: string      // None is modelled as ""
    var entries: seq<string>   // None is modelled as []
    var outputDir: string      // None is modelled as ""
    var value: int
    var maximum: int
    var buttonEnabled: bool
    var status: Status
    var queue: seq<string>     // entries submitted to the thread pool and not yet run
    var quit: bool             // the module-level `_QUIT`

    /** The visible progress state. */
    function Bar(): (r: Progress)
      reads this
    {
      Progress(value, maximum, buttonEnabled, status)
    }

    /** The guard of `convert_button_pressed`: all three inputs are non-empty. */
    predicate Ready()
      reads this
    {
      outputDir != [] && directory != [] && entries != []
    }

    /**
     * Between batches the button is enabled and nothing is queued; during a
     * batch the value plus the queued jobs make up the maximum.
     */
    ghost predicate Valid()
      reads this
    {
      InBatch(Bar(), |queue|)
    }

    /** `__init__`; the bar's initial value and maximum come from the window description. */
    constructor (initialValue: int, initialMaximum: int)
      ensures Valid() && !quit
      ensures directory == [] && entries == [] && outputDir == [] && queue == []
      ensures Bar() == Progress(initialValue, initialMaximum, true, Blank)
    {
      directory, entries, outputDir := [], [], [];
      value, maximum := initialValue, initialMaximum;
      buttonEnabled := true;
      status := Blank;
      queue := [];
      quit := false;
    }

    /**
     * `open_button_pressed`: `chosen` is the directory picked in the dialog
     * ("" when cancelled) and `listing` what `os.listdir` returns for it.
     */
    method OpenButtonPressed(chosen: string, listing: seq<string>)
      modifies this`directory, this`entries
      ensures directory == chosen
      ensures entries == if chosen != [] then ListEntries(listing) else old(entries)
    {
      directory := chosen;
      if directory != [] {
        entries := ListEntries(listing);
      }
    }

    /** `output_button_pressed`: `chosen` is the directory picked in the dialog. */
    method OutputButtonPressed(chosen: string)
      modifies this`outputDir
      ensures outputDir == chosen
    {
      outputDir := chosen;
    }

    /**
     * `convert_button_pressed`: clears the message; when the inputs are ready,
     * starts a batch of one job per entry, submitted in order.
     */
    method ConvertButtonPressed()
      modifies this`value, this`maximum, this`buttonEnabled, this`status, this`queue
      ensures old(Ready()) ==> Bar() == Started(|entries|) && queue == old(queue) + entries
      ensures !old(Ready()) ==> Bar() == old(Bar()).(status := Blank) && queue == old(queue)
      ensures old(Valid()) && old(buttonEnabled) ==> Valid()
    {
      status := Blank;
      if outputDir != [] && directory != [] && entries != [] {
        maximum := |entries|;
        value := 0;
        buttonEnabled := false;
        status := Converting;
        for i := 0 to |entries|
          invariant queue == old(queue) + entries[..i]
          invariant Bar() == Started(|entries|)
        {
          queue := queue + [entries[i]];
        }
        assert entries[..|entries|] == entries;
      }
    }

    /** `thread_complete`: the slot connected to every worker's `finished` signal. */
    method ThreadComplete()
      modifies this`value, this`buttonEnabled, this`status
      ensures Bar() == Completed(old(Bar()))
    {
      value := value + 1;
      if value == maximum {
        buttonEnabled := true;
        status := AllConverted;
      }
    }

    /** Delivers a worker's signals to the window; only `finished` has a slot. */
    method Dispatch(signals: seq<Signal>)
      modifies this`value, this`buttonEnabled, this`status
      ensures Bar() == Deliver(old(Bar()), signals)
    {
      for i := 0 to |signals|
        invariant Bar() == Deliver(old(Bar()), signals[..i])
      {
        assert signals[..i + 1][..i] == signals[..i];
        if signals[i].Finished? {
          ThreadComplete();
        }
      }
      assert signals[..|signals|] == signals;
    }

    /**
     * `convert(entry)`: builds the two paths, and, when ffmpeg could be
     * started (`p` is its process; null when starting it raised), waits for
     * it to end. The exit status of ffmpeg is not examined. The first
     * `quitAt` reads of `_QUIT` in the waiting loop find it clear; once set it
     * stays set, so it is seen at once when it already is.
     */
    method Convert(entry: string, p: Process?, quitAt: nat) returns (job: Job, outcome: FnOutcome)
      requires p != null ==> p.Valid()
      requires quit ==> quitAt == 0
      modifies p
      ensures job == Job(InputPath(directory, entry), OutputPath(outputDir, entry))
      ensures outcome == if p == null then Raised(SpawnFailure) else Returned
      ensures p != null ==> p.Valid() && !p.state.Running?
      ensures p != null ==> p.steps == old(p.steps) + PollTrace(old(p.state).Running?, quitAt, old(p.remaining))
    {
      job := Job(Join(directory, entry), Join(outputDir, DestinationName(entry)));
      if p == null {
        outcome := Raised(SpawnFailure);
      } else {
        AwaitExit(p, quitAt);
        outcome := Returned;
      }
    }

    /**
     * `Worker.run` with `convert(entry)` as its function: ffmpeg's process is
     * `p` (null when starting it raised), and the signals are those of `Run`.
     * The paths `convert` builds stay inside it; it returns None.
     */
    method RunWorker(entry: string, p: Process?, quitAt: nat) returns (signals: seq<Signal>)
      requires p != null ==> p.Valid()
      requires quit ==> quitAt == 0
      modifies p
      ensures signals == Run(if p == null then Raised(SpawnFailure) else Returned)
      ensures p != null ==> p.Valid() && !p.state.Running?
      ensures p != null ==> p.steps == old(p.steps) + PollTrace(old(p.state).Running?, quitAt, old(p.remaining))
    {
      var job, outcome := Convert(entry, p, quitAt);
      signals := Run(outcome);
    }

    /** The thread pool takes the oldest queued job. */
    method TakeJob() returns (entry: string)
      requires queue != []
      modifies this`queue
      ensures entry == old(queue)[0] && queue == old(queue)[1..]
    {
      entry := queue[0];
      queue := queue[1..];
    }

    /**
     * The thread pool runs the oldest queued job on a worker, and the window
     * receives the worker's signals.
     */
    method RunNextJob(p: Process?, quitAt: nat) returns (ran: bool, entry: string, signals: seq<Signal>)
      requires p != null ==> p.Valid()
      requires quit ==> quitAt == 0
      modifies this`value, this`buttonEnabled, this`status, this`queue, p
      ensures ran <==> old(queue) != []
      ensures !ran ==> Bar() == old(Bar()) && queue == old(queue) && signals == []
      ensures !ran && p != null ==> unchanged(p)
      ensures ran ==> entry == old(queue)[0]
      ensures ran ==> queue == old(queue)[1..] && Bar() == Completed(old(Bar()))
      ensures ran ==> signals == Run(if p == null then Raised(SpawnFailure) else Returned)
      ensures ran && p != null ==> !p.state.Running?
      ensures old(Valid()) ==> Valid()
    {
      signals := [];
      entry := [];
      ran := queue != [];
      if ran {
        ghost var before := Bar();
        ghost var pending := |queue|;
        entry := TakeJob();
        signals := RunWorker(entry, p, quitAt);
        FailedJobCounts(before, if p == null then Raised(SpawnFailure) else Returned);
        Dispatch(signals);
        if InBatch(before, pending) {
          CompletedInBatch(before, pending);
        }
      }
    }

    /**
     * `exit` after the event loop ends: drops the queued jobs and raises the
     * quit flag, so that a running `convert` terminates its process.
     */
    method Exit()
      modifies this`queue, this`quit
      ensures queue == [] && quit
    {
      queue := [];
      quit := true;
    }
  }
}
