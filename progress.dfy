/** The resumable progress log: the `progressData` record the watermarker
    keeps in memory, the copy of it in logs.json, and the steps that change
    them, from the startup repairs to the per-file loop of processImages.

    The record is a class whose fields are updated in place, as the program
    does. The field `persisted` is the content of logs.json and is assigned
    exactly where the program writes that file. The functions on `Store`
    values say what each step does to the pair (memory, file); the methods
    of the class are proved against them, and the properties of whole runs
    are lemmas about the functions (module RunProperties). */
module Progress {
  import opened Text

  /** The record stored in logs.json and held in `progressData`. */
  datatype ProgressLog = ProgressLog(
    batchNo: nat,
    filesRemaining: seq<string>,
    filesDone: seq<string>,
    fileInProgress: string,
    filesErrored: seq<string>)

  /** What resetProgressLogs writes. */
  const EmptyLog := ProgressLog(0, [], [], "", [])

  /** The record in memory (`live`) and the record in logs.json (`disk`). */
  datatype Store = Store(live: ProgressLog, disk: ProgressLog)

  /** What the loop learns from outside, file by file: whether `fs.existsSync`
      finds the source file; whether probing it (`sizeOf`, `createCanvas`,
      outside any handler) succeeds; and whether loading, drawing and encoding
      it, inside the promise whose failure is caught, succeed. */
  datatype Oracle = Oracle(present: string -> bool, probes: string -> bool, renders: string -> bool)

  /** A file that exists but cannot be probed (a directory, a file that is not
      an image): the throw rejects processImages, which ends the loop there. */
  predicate Aborts(f: string, o: Oracle)
  {
    o.present(f) && !o.probes(f)
  }

  // ---------------------------------------------------------------------------
  // setFiles' file-name normalisation
  // ---------------------------------------------------------------------------

  /** The name setFiles stores: ".jpg" is appended unless the text after the
      last '.' (the whole name when there is none) is already "jpg". */
  function NormalizeFileName(f: string): (r: string)
    ensures LastSegment(r, '.') == "jpg"
    ensures r == f || r == f + ".jpg"
    ensures r == f <==> LastSegment(f, '.') == "jpg"
  {
    if LastSegment(f, '.') == "jpg" then f
    else
      SplitAppend(f, '.', "jpg");
      assert f + ".jpg" == f + ['.'] + "jpg";
      f + ".jpg"
  }

  /** `files.map(...)` in setFiles. */
  function NormalizeFiles(files: seq<string>): (r: seq<string>)
    ensures |r| == |files|
    ensures forall k :: 0 <= k < |files| ==> r[k] == NormalizeFileName(files[k])
  {
    seq(|files|, k requires 0 <= k < |files| => NormalizeFileName(files[k]))
  }

  /** The record setFiles writes for an explicit file list. */
  function OverrideLog(files: seq<string>): ProgressLog
  {
    ProgressLog(0, NormalizeFiles(files), [], "", [])
  }

  // ---------------------------------------------------------------------------
  // Startup steps, as functions on the (memory, file) pair
  // ---------------------------------------------------------------------------

  /** `fs.writeFileSync('./logs.json', JSON.stringify(progressData))`. */
  function Write(live: ProgressLog): Store
  {
    Store(live, live)
  }

  /** The fresh-batch bootstrap: when nothing is remaining and nothing is done,
      the directory listing becomes the remaining list and is written out. */
  function Bootstrapped(st: Store, listing: seq<string>): Store
  {
    if |st.live.filesRemaining| <= 0 && |st.live.filesDone| <= 0 then
      Write(st.live.(filesRemaining := listing))
    else st
  }

  /** Orphan reclaim: a file left in progress by an interrupted run is appended
      to the errored list. The in-progress name itself is kept, and nothing is
      written. */
  function Reclaimed(l: ProgressLog): ProgressLog
  {
    if l.fileInProgress != "" then l.(filesErrored := l.filesErrored + [l.fileInProgress]) else l
  }

  /** The batch counter: bumped and written only when there is work left. */
  function BatchStarted(st: Store): Store
  {
    if |st.live.filesRemaining| > 0 then Write(st.live.(batchNo := st.live.batchNo + 1)) else st
  }

  // ---------------------------------------------------------------------------
  // One iteration of processImages
  // ---------------------------------------------------------------------------

  /** The last remaining file, the one the loop works on. */
  function NextFile(l: ProgressLog): string
    requires l.filesRemaining != []
  {
    l.filesRemaining[|l.filesRemaining| - 1]
  }

  /** `fileInProgress = filesRemaining.pop()`, then written out. */
  function Claimed(st: Store): Store
    requires st.live.filesRemaining != []
  {
    var l := st.live;
    Write(l.(fileInProgress := NextFile(l), filesRemaining := l.filesRemaining[..|l.filesRemaining| - 1]))
  }

  /** After a successful render: the in-progress file joins the done list,
      the slot is cleared, and the record is written out. */
  function DoneCommitted(st: Store): Store
  {
    var l := st.live;
    Write(l.(filesDone := l.filesDone + [l.fileInProgress], fileInProgress := ""))
  }

  /** A missing source file: `filesErrored.push(filesRemaining.pop())`, not written out. */
  function MissingSkipped(st: Store): Store
    requires st.live.filesRemaining != []
  {
    var l := st.live;
    Store(l.(filesErrored := l.filesErrored + [NextFile(l)],
             filesRemaining := l.filesRemaining[..|l.filesRemaining| - 1]),
          st.disk)
  }

  /** One iteration that does not abort. It removes exactly the last remaining
      file and leaves the batch number alone. A render failure is caught and
      only logged, so the claimed file stays in `fileInProgress` and is in no
      list. */
  function Step(st: Store, o: Oracle): (s: Store)
    requires st.live.filesRemaining != [] && !Aborts(NextFile(st.live), o)
    ensures s.live.filesRemaining == st.live.filesRemaining[..|st.live.filesRemaining| - 1]
    ensures s.live.batchNo == st.live.batchNo
  {
    var f := NextFile(st.live);
    if !o.present(f) then MissingSkipped(st)
    else if o.renders(f) then DoneCommitted(Claimed(st))
    else Claimed(st)
  }

  /** The loop runs until nothing remains or a file aborts it. */
  predicate Halted(st: Store, o: Oracle)
  {
    st.live.filesRemaining == [] || Aborts(NextFile(st.live), o)
  }

  /** The whole loop: iterate until it halts, with nothing remaining or at a
      file that aborts it; the batch number is not touched. */
  function Run(st: Store, o: Oracle): (s: Store)
    ensures Halted(s, o)
    ensures s.live.batchNo == st.live.batchNo
    decreases |st.live.filesRemaining|
  {
    if Halted(st, o) then st else Run(Step(st, o), o)
  }

  /** `d * (n / d)` is the multiple of `d` just at or below `n`. */
  lemma DivBounds(n: nat, d: nat)
    requires d > 0
    ensures d * (n / d) <= n < d * (n / d) + d
  {
  }

  /** Multiplication by a natural number is monotonic. */
  lemma MulAtLeast(a: nat, b: nat, c: nat)
    requires b >= c
    ensures a * b >= a * c
  {
  }

  /** `Math.round(done / (remaining + done) * 100)` in exact arithmetic: the
      percentage of the batch done, rounded to the nearest integer, halves
      up. The script's doubles can land just below a half and round down. */
  function PercentComplete(done: nat, remaining: nat): (p: int)
    requires done + remaining > 0
    ensures 0 <= p <= 100
    ensures remaining == 0 ==> p == 100
    ensures -(done + remaining) < 2 * p * (done + remaining) - 200 * done <= done + remaining
  {
    var total := done + remaining;
    var q := (200 * done + total) / (2 * total);
    DivBounds(200 * done + total, 2 * total);
    assert 2 * total * q == 2 * q * total;
    assert q <= 100 by {
      if q > 100 { MulAtLeast(2 * total, q, 101); }
    }
    assert remaining == 0 ==> q >= 100 by {
      if remaining == 0 && q < 100 { MulAtLeast(2 * total, 99, q); }
    }
    q
  }

  /** What one iteration prints as its completion line: after a successful
      render, the percentage of the record the iteration has just written;
      nothing otherwise. */
  function StepReport(st: Store, o: Oracle): (r: seq<int>)
    requires st.live.filesRemaining != [] && !Aborts(NextFile(st.live), o)
    ensures |r| == 1 <==> o.present(NextFile(st.live)) && o.renders(NextFile(st.live))
    ensures |r| <= 1 && forall k :: 0 <= k < |r| ==> 0 <= r[k] <= 100
    ensures var s := Step(st, o);
            |r| == 1 ==> s.disk == s.live && r[0] == PercentComplete(|s.live.filesDone|, |s.live.filesRemaining|)
  {
    var l := st.live;
    if o.present(NextFile(l)) && o.renders(NextFile(l)) then
      [PercentComplete(|l.filesDone| + 1, |l.filesRemaining| - 1)]
    else []
  }

  /** The completion lines of a whole loop, each a percentage. */
  function RunReports(st: Store, o: Oracle): (r: seq<int>)
    ensures forall k :: 0 <= k < |r| ==> 0 <= r[k] <= 100
    ensures |r| <= |st.live.filesRemaining|
    decreases |st.live.filesRemaining|
  {
    if Halted(st, o) then [] else StepReport(st, o) + RunReports(Step(st, o), o)
  }

  /** The loop's bookkeeping: one step that does not halt leaves the outcome
      of the whole loop alone and moves its report from the reports still to
      come to the reports printed. */
  lemma ReportsAfterStep(st: Store, o: Oracle, printed: seq<int>, printed': seq<int>)
    requires !Halted(st, o)
    requires printed' == printed + StepReport(st, o)
    ensures Run(Step(st, o), o) == Run(st, o)
    ensures printed' + RunReports(Step(st, o), o) == printed + RunReports(st, o)
  {
    var line, rest := StepReport(st, o), RunReports(Step(st, o), o);
    assert RunReports(st, o) == line + rest;
    assert printed' + rest == printed + (line + rest);
  }

  // ---------------------------------------------------------------------------
  // A whole invocation of the program
  // ---------------------------------------------------------------------------

  /** The record in logs.json once the reset and override requests are done. */
  function PreparedLog(onDisk: ProgressLog, reset: bool, overrideFiles: bool, files: Option<seq<string>>): ProgressLog
  {
    var d := if reset then EmptyLog else onDisk;
    if overrideFiles && files.Some? then OverrideLog(files.value) else d
  }

  /** The pair after loading, bootstrap and orphan reclaim, before the batch counter. */
  function Recovered(log: ProgressLog, listing: seq<string>): Store
  {
    var b := Bootstrapped(Store(log, log), listing);
    b.(live := Reclaimed(b.live))
  }

  /** One invocation: reset, override, load, bootstrap, reclaim, then the batch
      when there is anything to do. */
  function Session(onDisk: ProgressLog, reset: bool, overrideFiles: bool, files: Option<seq<string>>,
                   listing: seq<string>, o: Oracle): Store
  {
    var r := Recovered(PreparedLog(onDisk, reset, overrideFiles, files), listing);
    if |r.live.filesRemaining| > 0 then Run(BatchStarted(r), o) else r
  }

  /** The completion lines one invocation prints. */
  function SessionReports(onDisk: ProgressLog, reset: bool, overrideFiles: bool, files: Option<seq<string>>,
                          listing: seq<string>, o: Oracle): seq<int>
  {
    var r := Recovered(PreparedLog(onDisk, reset, overrideFiles, files), listing);
    if |r.live.filesRemaining| > 0 then RunReports(BatchStarted(r), o) else []
  }

  // ---------------------------------------------------------------------------
  // The in-place record
  // ---------------------------------------------------------------------------

  /** `progressData` together with the file logs.json. */
  class ProgressData {
    var batchNo: nat
    var filesRemaining: seq<string>
    var filesDone: seq<string>
    var fileInProgress: string
    var filesErrored: seq<string>
    /** The content of logs.json. */
    var persisted: ProgressLog

    function Live(): ProgressLog
      reads this
    {
      ProgressLog(batchNo, filesRemaining, filesDone, fileInProgress, filesErrored)
    }

    function State(): Store
      reads this
    {
      Store(Live(), persisted)
    }

    /** The process starts with `onDisk` in logs.json; `progressData` is not yet loaded. */
    constructor (onDisk: ProgressLog)
      ensures persisted == onDisk && Live() == EmptyLog
    {
      batchNo, filesRemaining, filesDone, fileInProgress, filesErrored := 0, [], [], "", [];
      persisted := onDisk;
    }

    /** `resetProgressLogs`: writes the empty record to logs.json. */
    method ResetProgressLogs()
      modifies this`persisted
      ensures persisted == EmptyLog
    {
      persisted := EmptyLog;
    }

    /** `setFiles`: when the list is present, writes a fresh record whose
        remaining list is the normalised list; an absent list changes nothing. */
    method SetFiles(files: Option<seq<string>>)
      modifies this`persisted
      ensures persisted == if files.Some? then OverrideLog(files.value) else old(persisted)
    {
      if files.Some? {
        persisted := OverrideLog(files.value);
      }
    }

    /** `progressData = JSON.parse(fs.readFileSync('./logs.json'))`. */
    method Load()
      modifies this
      ensures Live() == old(persisted) && persisted == old(persisted)
    {
      batchNo := persisted.batchNo;
      filesRemaining := persisted.filesRemaining;
      filesDone := persisted.filesDone;
      fileInProgress := persisted.fileInProgress;
      filesErrored := persisted.filesErrored;
    }

    /** The fresh-batch bootstrap with the source directory's listing. */
    method Bootstrap(listing: seq<string>)
      modifies this
      ensures State() == Bootstrapped(old(State()), listing)
    {
      if |filesRemaining| <= 0 && |filesDone| <= 0 {
        filesRemaining := listing;
        persisted := Live();
      }
    }

    /** Orphan reclaim. */
    method ReclaimOrphan()
      modifies this`filesErrored
      ensures Live() == Reclaimed(old(Live()))
    {
      if fileInProgress != "" {
        filesErrored := filesErrored + [fileInProgress];
      }
    }

    /** The batch-counter bump; `started` tells whether the batch runs. */
    method StartBatch() returns (started: bool)
      modifies this
      ensures started <==> old(filesRemaining) != []
      ensures State() == BatchStarted(old(State()))
    {
      started := |filesRemaining| > 0;
      if started {
        batchNo := batchNo + 1;
        persisted := Live();
      }
    }

    /** One iteration of the loop of processImages on a file that does not
        abort it; `reported` is the completion line it prints, if any. */
    method ProcessNext(o: Oracle) returns (reported: seq<int>)
      requires filesRemaining != [] && !Aborts(NextFile(Live()), o)
      modifies this
      ensures State() == Step(old(State()), o)
      ensures reported == StepReport(old(State()), o)
    {
      ghost var before := State();
      var imageName := filesRemaining[|filesRemaining| - 1];
      reported := [];
      if o.present(imageName) {
        fileInProgress := filesRemaining[|filesRemaining| - 1];
        filesRemaining := filesRemaining[..|filesRemaining| - 1];
        persisted := Live();
        assert State() == Claimed(before);
        if o.renders(imageName) {
          filesDone := filesDone + [fileInProgress];
          fileInProgress := "";
          persisted := Live();
          reported := [PercentComplete(|filesDone|, |filesRemaining|)];
          assert State() == DoneCommitted(Claimed(before));
        }
      } else {
        filesErrored := filesErrored + [filesRemaining[|filesRemaining| - 1]];
        filesRemaining := filesRemaining[..|filesRemaining| - 1];
        assert State() == MissingSkipped(before);
      }
    }

    /** The loop of processImages; `reports` are the percentages it prints,
        and `finished` tells whether the returned promise resolves (it is
        rejected when a file aborts the loop). */
    method ProcessImages(o: Oracle) returns (reports: seq<int>, finished: bool)
      modifies this
      ensures State() == Run(old(State()), o)
      ensures reports == RunReports(old(State()), o)
      ensures finished <==> filesRemaining == []
    {
      reports := [];
      ghost var initial := State();
      while |filesRemaining| > 0
        invariant Run(State(), o) == Run(initial, o)
        invariant reports + RunReports(State(), o) == RunReports(initial, o)
        decreases |filesRemaining|
      {
        ghost var before, reportsBefore := State(), reports;
        var imageName := filesRemaining[|filesRemaining| - 1];
        if o.present(imageName) && !o.probes(imageName) {
          assert Halted(before, o);
          finished := false;
          return;
        }
        var reported := ProcessNext(o);
        reports := reports + reported;
        ReportsAfterStep(before, o, reportsBefore, reports);
      }
      finished := true;
    }
  }

  /** One invocation of the program. `resetLogs` is the configuration flag and
      `args` the command-line arguments; each "reset" among them resets the log.
      `summarised` tells whether the batch ran and its promise resolved, which
      is when the summary that re-reads logs.json is printed. */
  method Launch(onDisk: ProgressLog, resetLogs: bool, args: seq<string>, overrideFiles: bool,
                files: Option<seq<string>>, listing: seq<string>, o: Oracle)
    returns (p: ProgressData, reports: seq<int>, summarised: bool)
    ensures fresh(p)
    ensures p.State() == Session(onDisk, resetLogs || "reset" in args, overrideFiles, files, listing, o)
    ensures reports == SessionReports(onDisk, resetLogs || "reset" in args, overrideFiles, files, listing, o)
    ensures summarised <==> Recovered(PreparedLog(onDisk, resetLogs || "reset" in args, overrideFiles, files), listing)
                              .live.filesRemaining != [] && p.filesRemaining == []
  {
    p := new ProgressData(onDisk);
    if resetLogs {
      p.ResetProgressLogs();
    }
    for i := 0 to |args|
      invariant p.persisted == if resetLogs || "reset" in args[..i] then EmptyLog else onDisk
    {
      if args[i] == "reset" {
        p.ResetProgressLogs();
      }
      assert args[..i + 1] == args[..i] + [args[i]];
    }
    assert args[..|args|] == args;
    if overrideFiles {
      p.SetFiles(files);
    }
    p.Load();
    p.Bootstrap(listing);
    p.ReclaimOrphan();
    var started := p.StartBatch();
    reports, summarised := [], false;
    if started {
      reports, summarised := p.ProcessImages(o);
    }
  }
}
