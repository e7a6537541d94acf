/** What a whole batch does to the progress log, and what logs.json holds
    along the way, as lemmas about the step functions of module Progress. */
module RunProperties {
  import opened Text
  import opened Progress

  // ---------------------------------------------------------------------------
  // Reference descriptions of a run
  // ---------------------------------------------------------------------------

  /** The files in the order the loop takes them: last first. */
  function Reverse(s: seq<string>): (r: seq<string>)
    ensures |r| == |s|
  {
    if s == [] then [] else [s[|s| - 1]] + Reverse(s[..|s| - 1])
  }

  lemma {:induction false} ReverseCons(f: string, s: seq<string>)
    ensures Reverse([f] + s) == Reverse(s) + [f]
  {
    if s != [] {
      assert ([f] + s)[..|s|] == [f] + s[..|s| - 1];
      ReverseCons(f, s[..|s| - 1]);
    }
  }

  lemma {:induction false} ReverseMultiset(s: seq<string>)
    ensures multiset(Reverse(s)) == multiset(s)
  {
    if s != [] {
      ReverseMultiset(s[..|s| - 1]);
      assert s == s[..|s| - 1] + [s[|s| - 1]];
    }
  }

  /** What becomes of one file taken by the loop. */
  datatype Outcome = Rendered | Missing | RenderFailed

  function OutcomeOf(f: string, o: Oracle): Outcome
  {
    if !o.present(f) then Missing else if o.renders(f) then Rendered else RenderFailed
  }

  /** The files of `files` whose outcome is `k`, in order. */
  function WithOutcome(files: seq<string>, o: Oracle, k: Outcome): (r: seq<string>)
    ensures |r| <= |files|
  {
    if files == [] then []
    else (if OutcomeOf(files[0], o) == k then [files[0]] else []) + WithOutcome(files[1..], o, k)
  }

  /** Every file has exactly one outcome. */
  lemma {:induction false} OutcomesPartition(files: seq<string>, o: Oracle)
    ensures multiset(files)
         == multiset(WithOutcome(files, o, Rendered)) + multiset(WithOutcome(files, o, Missing))
          + multiset(WithOutcome(files, o, RenderFailed))
  {
    if files != [] {
      var f, rest := files[0], files[1..];
      assert files == [f] + rest;
      OutcomesPartition(rest, o);
      OutcomeOfFront(f, rest, o, Rendered);
      OutcomeOfFront(f, rest, o, Missing);
      OutcomeOfFront(f, rest, o, RenderFailed);
      var r, m, e := multiset(WithOutcome(rest, o, Rendered)), multiset(WithOutcome(rest, o, Missing)),
                     multiset(WithOutcome(rest, o, RenderFailed));
      var r', m', e' := multiset(WithOutcome(files, o, Rendered)), multiset(WithOutcome(files, o, Missing)),
                        multiset(WithOutcome(files, o, RenderFailed));
      match OutcomeOf(f, o)
      case Rendered => Regroup3(multiset{f}, r, m, e, r', m', e');
      case Missing => Regroup3(multiset{f}, m, r, e, m', r', e');
      case RenderFailed => Regroup3(multiset{f}, e, r, m, e', r', m');
    }
  }

  /** The file in front is counted in the part of its own outcome only. */
  lemma OutcomeOfFront(f: string, rest: seq<string>, o: Oracle, k: Outcome)
    ensures multiset(WithOutcome([f] + rest, o, k))
         == (if OutcomeOf(f, o) == k then multiset{f} else multiset{}) + multiset(WithOutcome(rest, o, k))
  {
    assert ([f] + rest)[1..] == rest;
  }

  /** Moving one element into the part of a three-way split that gains it. */
  lemma Regroup3<T>(x: multiset<T>, a: multiset<T>, b: multiset<T>, c: multiset<T>,
                    a': multiset<T>, b': multiset<T>, c': multiset<T>)
    requires a' == x + a && b' == b && c' == c
    ensures x + (a + b + c) == a' + b' + c' == b' + a' + c' == b' + c' + a'
  {
  }

  /** The in-progress slot after a run, read off the remaining list from the
      FRONT: the first file that is present decides it (cleared if it
      rendered, its name if the render failed); with no present file the slot
      keeps `slot`. */
  function SlotAfter(remaining: seq<string>, o: Oracle, slot: string): string
  {
    if remaining == [] then slot
    else if o.present(remaining[0]) then (if o.renders(remaining[0]) then "" else remaining[0])
    else SlotAfter(remaining[1..], o, slot)
  }

  /** The slot after taking the single file `f`. */
  function SlotAfterOne(f: string, o: Oracle, slot: string): string
  {
    if o.present(f) then (if o.renders(f) then "" else f) else slot
  }

  lemma {:induction false} SlotAfterSnoc(init: seq<string>, f: string, o: Oracle, slot: string)
    ensures SlotAfter(init + [f], o, slot) == SlotAfter(init, o, SlotAfterOne(f, o, slot))
  {
    if init != [] {
      assert (init + [f])[1..] == init[1..] + [f];
      SlotAfterSnoc(init[1..], f, o, slot);
    } else {
      assert (init + [f])[1..] == [];
    }
  }

  /** The front part of a remaining list that the loop never takes: empty
      when no file aborts it, otherwise everything up to and including the
      aborting file nearest the back, which is the first the loop meets. */
  function Unreached(remaining: seq<string>, o: Oracle): (u: seq<string>)
    ensures |u| <= |remaining| && remaining[..|u|] == u
    ensures u == [] || Aborts(u[|u| - 1], o)
    ensures forall k :: |u| <= k < |remaining| ==> !Aborts(remaining[k], o)
    decreases |remaining|
  {
    if remaining == [] then []
    else if Aborts(remaining[|remaining| - 1], o) then remaining
    else
      var init := remaining[..|remaining| - 1];
      var u := Unreached(init, o);
      assert remaining[..|u|] == init[..|u|];
      u
  }

  /** Nothing is left unreached exactly when no file aborts the loop. */
  lemma {:induction false} UnreachedEmpty(remaining: seq<string>, o: Oracle)
    ensures Unreached(remaining, o) == [] <==> forall k :: 0 <= k < |remaining| ==> !Aborts(remaining[k], o)
    decreases |remaining|
  {
    if remaining != [] && !Aborts(remaining[|remaining| - 1], o) {
      var init := remaining[..|remaining| - 1];
      UnreachedEmpty(init, o);
      assert forall k :: 0 <= k < |init| ==> init[k] == remaining[k];
    }
  }

  /** The files the loop takes, listed front to back (it takes them back to front). */
  function Taken(remaining: seq<string>, o: Oracle): seq<string>
  {
    remaining[|Unreached(remaining, o)|..]
  }

  /** Files that cannot abort the loop, added at the back, are all taken. */
  lemma {:induction false} UnreachedSkips(a: seq<string>, g: seq<string>, o: Oracle)
    requires forall k :: 0 <= k < |g| ==> !Aborts(g[k], o)
    ensures Unreached(a + g, o) == Unreached(a, o)
    decreases |g|
  {
    if g != [] {
      assert (a + g)[..|a + g| - 1] == a + g[..|g| - 1];
      UnreachedSkips(a, g[..|g| - 1], o);
    } else {
      assert a + g == a;
    }
  }

  // ---------------------------------------------------------------------------
  // The loop of processImages
  // ---------------------------------------------------------------------------

  /** One iteration takes the LAST remaining file and removes exactly it. A
      missing file is appended to the errored list and nothing else changes,
      logs.json included. A rendered file ends in the done list with the slot
      cleared, and is written out. A file whose render failed is in no list:
      it sits in the slot, as written out when it was claimed. */
  lemma StepTakesLast(st: Store, o: Oracle)
    requires st.live.filesRemaining != [] && !Aborts(NextFile(st.live), o)
    ensures var r := st.live.filesRemaining; var f := r[|r| - 1]; var s := Step(st, o);
      && s.live.filesRemaining == r[..|r| - 1]
      && |s.live.filesRemaining| < |r|
      && s.live.batchNo == st.live.batchNo
      && (!o.present(f) ==> s == Store(st.live.(filesRemaining := r[..|r| - 1],
                                                filesErrored := st.live.filesErrored + [f]), st.disk))
      && (o.present(f) && o.renders(f) ==>
            s.live.filesDone == st.live.filesDone + [f] && s.live.fileInProgress == ""
            && s.live.filesErrored == st.live.filesErrored && s.disk == s.live)
      && (o.present(f) && !o.renders(f) ==>
            s.live.filesDone == st.live.filesDone && s.live.filesErrored == st.live.filesErrored
            && s.live.fileInProgress == f && s.disk == s.live)
  {
  }

  /** A file that exists but cannot be probed stops the loop at once:
      nothing changes, nothing is written and nothing is printed. */
  lemma RunStopsAtAbort(st: Store, o: Oracle)
    requires st.live.filesRemaining != [] && Aborts(NextFile(st.live), o)
    ensures Run(st, o) == st && RunReports(st, o) == []
  {
  }

  /** The loop leaves exactly the unreached part remaining, so it ends with
      nothing remaining exactly when no file aborts it. */
  lemma {:induction false} RunStops(st: Store, o: Oracle)
    ensures Run(st, o).live.filesRemaining == Unreached(st.live.filesRemaining, o)
    ensures Run(st, o).live.filesRemaining == []
        <==> forall k :: 0 <= k < |st.live.filesRemaining| ==> !Aborts(st.live.filesRemaining[k], o)
    decreases |st.live.filesRemaining|
  {
    if !Halted(st, o) {
      RunStops(Step(st, o), o);
    }
    UnreachedEmpty(st.live.filesRemaining, o);
  }

  /** Taking one more file at the back adds it at the front of the reversed list. */
  lemma TakenSnoc(init: seq<string>, f: string, o: Oracle)
    requires !Aborts(f, o)
    ensures Taken(init + [f], o) == Taken(init, o) + [f]
    ensures Reverse(Taken(init + [f], o)) == [f] + Reverse(Taken(init, o))
  {
    var r := init + [f];
    assert r[..|r| - 1] == init;
    var t := Taken(init, o);
    assert (t + [f])[..|t|] == t;
  }

  /** One iteration in the terms of a run: the taken file's outcome decides
      which list it joins and what the slot becomes. */
  lemma StepOutcome(st: Store, o: Oracle)
    requires !Halted(st, o)
    ensures Step(st, o).live.filesDone == st.live.filesDone + WithOutcome([NextFile(st.live)], o, Rendered)
    ensures Step(st, o).live.filesErrored == st.live.filesErrored + WithOutcome([NextFile(st.live)], o, Missing)
    ensures Step(st, o).live.fileInProgress == SlotAfterOne(NextFile(st.live), o, st.live.fileInProgress)
  {
    assert [NextFile(st.live)][1..] == [];
  }

  lemma WithOutcomeCons(f: string, s: seq<string>, o: Oracle, k: Outcome)
    ensures WithOutcome([f] + s, o, k) == WithOutcome([f], o, k) + WithOutcome(s, o, k)
  {
    assert ([f] + s)[1..] == s;
    assert [f][1..] == [];
  }

  /** The list of the record a file with outcome `k` joins: the done list
      for a rendered file, the errored list for a missing one. */
  function Gathered(l: ProgressLog, k: Outcome): seq<string>
    requires k != RenderFailed
  {
    if k == Rendered then l.filesDone else l.filesErrored
  }

  /** A run, file by file, in LIFO order: of the files it takes, rendered ones
      are appended to the done list and missing ones to the errored list, in
      the order the loop takes them (last remaining first); the batch number
      is untouched. */
  lemma RunOutcome(st: Store, o: Oracle)
    ensures Run(st, o).live.filesDone
         == st.live.filesDone + WithOutcome(Reverse(Taken(st.live.filesRemaining, o)), o, Rendered)
    ensures Run(st, o).live.filesErrored
         == st.live.filesErrored + WithOutcome(Reverse(Taken(st.live.filesRemaining, o)), o, Missing)
    ensures Run(st, o).live.batchNo == st.live.batchNo
  {
    RunGathers(st, o, Rendered);
    RunGathers(st, o, Missing);
  }

  /** The list for outcome `k` gains the taken files of that outcome, in the
      order the loop takes them. */
  lemma {:induction false} RunGathers(st: Store, o: Oracle, k: Outcome)
    requires k != RenderFailed
    ensures Gathered(Run(st, o).live, k)
         == Gathered(st.live, k) + WithOutcome(Reverse(Taken(st.live.filesRemaining, o)), o, k)
    decreases |st.live.filesRemaining|
  {
    if !Halted(st, o) {
      var next := Step(st, o);
      RunGathers(next, o, k);
      StepOutcome(st, o);
      TakenStep(st, o);
      AppendOutcomes(Gathered(st.live, k), NextFile(st.live), Reverse(Taken(next.live.filesRemaining, o)), o, k);
    } else {
      TakenHalted(st, o);
    }
  }

  /** A step takes the next file, the first in the loop's order. */
  lemma TakenStep(st: Store, o: Oracle)
    requires !Halted(st, o)
    ensures Reverse(Taken(st.live.filesRemaining, o))
         == [NextFile(st.live)] + Reverse(Taken(Step(st, o).live.filesRemaining, o))
  {
    var r := st.live.filesRemaining;
    assert r == r[..|r| - 1] + [NextFile(st.live)];
    TakenSnoc(r[..|r| - 1], NextFile(st.live), o);
  }

  /** A loop that has halted takes nothing more. */
  lemma TakenHalted(st: Store, o: Oracle)
    requires Halted(st, o)
    ensures Taken(st.live.filesRemaining, o) == [] && Run(st, o) == st
  {
  }

  /** Appending one file's selection and then the rest's is appending the selection of both. */
  lemma AppendOutcomes(a: seq<string>, f: string, s: seq<string>, o: Oracle, k: Outcome)
    ensures a + WithOutcome([f], o, k) + WithOutcome(s, o, k) == a + WithOutcome([f] + s, o, k)
  {
    WithOutcomeCons(f, s, o, k);
  }

  /** The in-progress slot after a run is decided by the front-most present
      file the run takes: cleared if it rendered, its name if its render
      failed; with no present file taken the slot is as before. */
  lemma {:induction false} RunSlot(st: Store, o: Oracle)
    ensures Run(st, o).live.fileInProgress
         == SlotAfter(Taken(st.live.filesRemaining, o), o, st.live.fileInProgress)
    decreases |st.live.filesRemaining|
  {
    var r := st.live.filesRemaining;
    if !Halted(st, o) {
      var f := r[|r| - 1];
      var init := r[..|r| - 1];
      assert r == init + [f];
      RunSlot(Step(st, o), o);
      StepOutcome(st, o);
      TakenSnoc(init, f, o);
      SlotAfterSnoc(Taken(init, o), f, o, st.live.fileInProgress);
    } else {
      TakenHalted(st, o);
    }
  }

  /** Conservation: every file the run takes ends up in the done list, in the
      errored list, or, when its render failed, in neither (it is lost from the
      lists and at most left in the in-progress slot); the files it does not
      take are still remaining. */
  lemma RunAccountsForEveryFile(st: Store, o: Oracle)
    ensures multiset(st.live.filesRemaining) + multiset(st.live.filesDone) + multiset(st.live.filesErrored)
         == multiset(Run(st, o).live.filesRemaining)
          + multiset(Run(st, o).live.filesDone) + multiset(Run(st, o).live.filesErrored)
          + multiset(WithOutcome(Taken(st.live.filesRemaining, o), o, RenderFailed))
  {
    var r := st.live.filesRemaining;
    var u, t := Unreached(r, o), Taken(r, o);
    var rt := Reverse(t);
    var done, errored := WithOutcome(rt, o, Rendered), WithOutcome(rt, o, Missing);
    assert multiset(r) == multiset(u) + multiset(t) by {
      assert r == u + t;
    }
    assert multiset(t) == multiset(done) + multiset(errored) + multiset(WithOutcome(t, o, RenderFailed)) by {
      OutcomesPartition(rt, o);
      ReverseMultiset(t);
      ReverseOutcomes(t, o, RenderFailed);
    }
    RunStops(st, o);
    RunOutcome(st, o);
    var after := Run(st, o).live;
    assert multiset(after.filesDone) == multiset(st.live.filesDone) + multiset(done);
    assert multiset(after.filesErrored) == multiset(st.live.filesErrored) + multiset(errored);
    Regroup(multiset(r), multiset(u), multiset(t), multiset(st.live.filesDone), multiset(st.live.filesErrored),
            multiset(done), multiset(errored), multiset(WithOutcome(t, o, RenderFailed)));
  }

  /** Multiset bookkeeping for the conservation lemma. */
  lemma Regroup<T>(r: multiset<T>, u: multiset<T>, t: multiset<T>, d: multiset<T>, e: multiset<T>,
                   d': multiset<T>, e': multiset<T>, f: multiset<T>)
    requires r == u + t && t == d' + e' + f
    ensures r + d + e == u + (d + d') + (e + e') + f
  {
  }

  /** Selecting by outcome commutes with reversal, up to order. */
  lemma {:induction false} ReverseOutcomes(s: seq<string>, o: Oracle, k: Outcome)
    ensures multiset(WithOutcome(Reverse(s), o, k)) == multiset(WithOutcome(s, o, k))
  {
    if s != [] {
      var init, f := s[..|s| - 1], s[|s| - 1];
      ReverseOutcomes(init, o, k);
      WithOutcomeSnoc(init, f, o, k);
      assert s == init + [f];
    }
  }

  lemma {:induction false} WithOutcomeSnoc(s: seq<string>, f: string, o: Oracle, k: Outcome)
    ensures WithOutcome(s + [f], o, k) == WithOutcome(s, o, k) + (if OutcomeOf(f, o) == k then [f] else [])
  {
    if s != [] {
      assert (s + [f])[1..] == s[1..] + [f];
      WithOutcomeSnoc(s[1..], f, o, k);
    } else {
      assert [f][1..] == [];
    }
  }

  /** The loop prints one percentage per file it adds to the done list. */
  lemma {:induction false} RunReportsPerRendered(st: Store, o: Oracle)
    ensures |st.live.filesDone| + |RunReports(st, o)| == |Run(st, o).live.filesDone|
    decreases |st.live.filesRemaining|
  {
    if !Halted(st, o) {
      RunReportsPerRendered(Step(st, o), o);
    }
  }

  // ---------------------------------------------------------------------------
  // logs.json during a run
  // ---------------------------------------------------------------------------

  /** How far logs.json trails the record in memory: only by missing files.
      The memory's remaining list is a prefix of the file's; the files beyond
      it (the gap) are all missing, and the memory's errored list is the
      file's plus the gap in the order the loop took it. Everything else
      agrees. */
  ghost predicate DiskLags(st: Store, o: Oracle)
  {
    var n := |st.live.filesRemaining|;
    && n <= |st.disk.filesRemaining|
    && st.disk.filesRemaining[..n] == st.live.filesRemaining
    && (forall k :: n <= k < |st.disk.filesRemaining| ==> !o.present(st.disk.filesRemaining[k]))
    && st.live.filesErrored == st.disk.filesErrored + Reverse(st.disk.filesRemaining[n..])
    && st.live.filesDone == st.disk.filesDone
    && st.live.fileInProgress == st.disk.fileInProgress
    && st.live.batchNo == st.disk.batchNo
  }

  /** Right after a write the file does not trail at all. */
  lemma WriteLags(l: ProgressLog, o: Oracle)
    ensures DiskLags(Write(l), o)
  {
    assert l.filesRemaining[|l.filesRemaining|..] == [];
  }

  lemma StepKeepsLag(st: Store, o: Oracle)
    requires st.live.filesRemaining != [] && !Aborts(NextFile(st.live), o)
    requires DiskLags(st, o)
    ensures DiskLags(Step(st, o), o)
  {
    var f := NextFile(st.live);
    if o.present(f) {
      WriteLags(Step(st, o).live, o);
    } else {
      var n := |st.live.filesRemaining|;
      var d := st.disk.filesRemaining;
      assert d[n - 1] == f;
      assert d[n - 1..] == [f] + d[n..];
      ReverseCons(f, d[n..]);
      assert d[..n - 1] == d[..n][..n - 1];
    }
  }

  /** The lag is kept for the whole loop, so a crash at any point leaves in
      logs.json every file still in memory's remaining list, plus only files
      that were found missing. */
  lemma {:induction false} RunKeepsLag(st: Store, o: Oracle)
    requires DiskLags(st, o)
    ensures DiskLags(Run(st, o), o)
    decreases |st.live.filesRemaining|
  {
    if !Halted(st, o) {
      StepKeepsLag(st, o);
      RunKeepsLag(Step(st, o), o);
    }
  }

  /** When the last file the loop takes (the one just behind the unreached
      part) is present, the run ends with logs.json equal to the record in
      memory. */
  lemma {:induction false} RunEndsWrittenWhenLastPresent(st: Store, o: Oracle)
    requires |Unreached(st.live.filesRemaining, o)| < |st.live.filesRemaining|
    requires o.present(st.live.filesRemaining[|Unreached(st.live.filesRemaining, o)|])
    ensures Run(st, o).disk == Run(st, o).live
    decreases |st.live.filesRemaining|
  {
    var u := Unreached(st.live.filesRemaining, o);
    var next := Step(st, o);
    UnreachedStep(st, o);
    if |u| < |next.live.filesRemaining| {
      RunEndsWrittenWhenLastPresent(next, o);
    } else {
      UnreachedAll(next, o);
    }
  }

  /** When the last file the loop takes is missing, its removal is never
      written: logs.json still lists it as remaining when the loop ends, so
      the next invocation takes it again. */
  lemma {:induction false} RunEndsUnwrittenWhenLastMissing(st: Store, o: Oracle)
    requires |Unreached(st.live.filesRemaining, o)| < |st.live.filesRemaining|
    requires !o.present(st.live.filesRemaining[|Unreached(st.live.filesRemaining, o)|])
    requires DiskLags(st, o)
    ensures |Run(st, o).disk.filesRemaining| > |Run(st, o).live.filesRemaining|
    decreases |st.live.filesRemaining|
  {
    var u := Unreached(st.live.filesRemaining, o);
    var next := Step(st, o);
    UnreachedStep(st, o);
    StepKeepsLag(st, o);
    if |u| < |next.live.filesRemaining| {
      RunEndsUnwrittenWhenLastMissing(next, o);
    } else {
      UnreachedAll(next, o);
    }
  }

  /** While a file behind the unreached part remains, the loop steps on: the
      unreached part stays, and the file just behind it is unchanged. */
  lemma UnreachedStep(st: Store, o: Oracle)
    requires |Unreached(st.live.filesRemaining, o)| < |st.live.filesRemaining|
    ensures !Halted(st, o) && Run(st, o) == Run(Step(st, o), o)
    ensures var r, u := st.live.filesRemaining, Unreached(st.live.filesRemaining, o);
            && Unreached(Step(st, o).live.filesRemaining, o) == u
            && (|u| < |r| - 1 ==> Step(st, o).live.filesRemaining[|u|] == r[|u|])
  {
    var r := st.live.filesRemaining;
    assert Step(st, o).live.filesRemaining == r[..|r| - 1];
  }

  /** A list that is all unreached halts the loop at once. */
  lemma UnreachedAll(st: Store, o: Oracle)
    requires |Unreached(st.live.filesRemaining, o)| >= |st.live.filesRemaining|
    ensures Run(st, o) == st
  {
    var r := st.live.filesRemaining;
    assert Unreached(r, o) == r[..|r|] == r;
  }

  // ---------------------------------------------------------------------------
  // Startup
  // ---------------------------------------------------------------------------

  /** setFiles' normalisation keeps the length and order of the list, gives
      every name the last segment "jpg", and is idempotent. */
  lemma NormalizeFilesIdempotent(files: seq<string>)
    ensures forall k :: 0 <= k < |files| ==> LastSegment(NormalizeFiles(files)[k], '.') == "jpg"
    ensures NormalizeFiles(NormalizeFiles(files)) == NormalizeFiles(files)
  {
  }

  /** The bootstrap settles: a second bootstrap with the same listing changes
      nothing, and once it has installed a non-empty listing no later listing
      is taken. */
  lemma BootstrapIdempotent(st: Store, listing: seq<string>, listing': seq<string>)
    ensures Bootstrapped(Bootstrapped(st, listing), listing) == Bootstrapped(st, listing)
    ensures listing != [] ==> Bootstrapped(Bootstrapped(st, listing), listing') == Bootstrapped(st, listing)
  {
  }

  /** After a reset, recovery starts the directory listing afresh. */
  lemma ResetThenRecover(listing: seq<string>)
    ensures Recovered(EmptyLog, listing) == Write(ProgressLog(0, listing, [], "", []))
  {
  }

  /** After setFiles, recovery keeps the normalised explicit list, except that
      an empty list lets the bootstrap install the whole directory listing. */
  lemma OverrideThenRecover(files: seq<string>, listing: seq<string>)
    ensures Recovered(OverrideLog(files), listing).live.filesRemaining
         == if files == [] then listing else NormalizeFiles(files)
    ensures Recovered(OverrideLog(files), listing).live.filesDone == []
    ensures Recovered(OverrideLog(files), listing).live.filesErrored == []
  {
  }

  /** Orphan reclaim keeps the in-progress name, so reclaiming the same
      record again lists the same file twice. Across invocations this needs
      the reclaimed record to have been written and the slot not to have
      been claimed since (ReclaimTwiceAcrossStartups). */
  lemma ReclaimKeepsSlot(l: ProgressLog)
    requires l.fileInProgress != ""
    ensures Reclaimed(l).fileInProgress == l.fileInProgress
    ensures Reclaimed(Reclaimed(l)).filesErrored == l.filesErrored + [l.fileInProgress, l.fileInProgress]
  {
  }

  /** A loop that claims no file, because every remaining file is missing or
      throws at its probe, never writes logs.json. */
  lemma {:induction false} RunWithoutClaimKeepsDisk(st: Store, o: Oracle)
    requires forall k :: 0 <= k < |st.live.filesRemaining| ==>
               o.present(st.live.filesRemaining[k]) ==> Aborts(st.live.filesRemaining[k], o)
    ensures Run(st, o).disk == st.disk
    decreases |st.live.filesRemaining|
  {
    if !Halted(st, o) {
      var next := Step(st, o);
      assert next.live.filesRemaining == st.live.filesRemaining[..|st.live.filesRemaining| - 1];
      RunWithoutClaimKeepsDisk(next, o);
    }
  }

  /** A file left in the slot is listed twice by two startups when the first
      one found files remaining, so that the batch counter wrote the reclaimed
      record, and its loop claimed no file because every one was missing or
      threw at its probe. */
  lemma ReclaimTwiceAcrossStartups(l: ProgressLog, listing: seq<string>, o: Oracle)
    requires l.fileInProgress != "" && l.filesRemaining != []
    requires forall k :: 0 <= k < |l.filesRemaining| ==>
               o.present(l.filesRemaining[k]) ==> Aborts(l.filesRemaining[k], o)
    ensures Recovered(Session(l, false, false, None, listing, o).disk, listing).live.filesErrored
         == l.filesErrored + [l.fileInProgress, l.fileInProgress]
  {
    var b := BatchStarted(Recovered(l, listing));
    RunWithoutClaimKeepsDisk(b, o);
  }

  /** When the first startup finds nothing remaining, nothing is written: the
      next startup reclaims from the same record and lists the file once. */
  lemma ReclaimOnceWhenNothingRemains(l: ProgressLog, listing: seq<string>, o: Oracle)
    requires l.fileInProgress != "" && l.filesRemaining == [] && l.filesDone != []
    ensures Recovered(Session(l, false, false, None, listing, o).disk, listing).live.filesErrored
         == l.filesErrored + [l.fileInProgress]
  {
  }

  /** A crash while a claimed file is being rendered: logs.json then holds the
      claimed file in the slot, and the next startup appends it to the
      errored list after anything errored before. */
  lemma CrashDuringRenderRecovered(st: Store, listing: seq<string>)
    requires st.live.filesRemaining != [] && NextFile(st.live) != ""
    ensures Recovered(Claimed(st).disk, listing).live.filesErrored
         == st.live.filesErrored + [NextFile(st.live)]
  {
  }

  /** An invocation leaves in memory exactly the part of the recovered list
      the loop never reaches: nothing at all unless a file aborts it. */
  lemma SessionStops(onDisk: ProgressLog, reset: bool, overrideFiles: bool, files: Option<seq<string>>,
                     listing: seq<string>, o: Oracle)
    ensures var r := Recovered(PreparedLog(onDisk, reset, overrideFiles, files), listing).live.filesRemaining;
            Session(onDisk, reset, overrideFiles, files, listing, o).live.filesRemaining == Unreached(r, o)
  {
    var r := Recovered(PreparedLog(onDisk, reset, overrideFiles, files), listing);
    if |r.live.filesRemaining| > 0 {
      RunStops(BatchStarted(r), o);
    }
  }

  /** When the loop halted at an aborting file and logs.json lags behind,
      the files logs.json lists behind the abort are all taken by a new loop,
      which halts at the same place. */
  lemma LaggingDiskHaltsAlike(s: Store, o: Oracle)
    requires DiskLags(s, o) && Halted(s, o)
    ensures Unreached(s.disk.filesRemaining, o) == Unreached(s.live.filesRemaining, o)
  {
    var live := s.live.filesRemaining;
    var d := s.disk.filesRemaining;
    var gap := d[|live|..];
    assert d == live + gap by {
      assert d[..|live|] == live;
    }
    assert forall k :: 0 <= k < |gap| ==> gap[k] == d[|live| + k];
    UnreachedSkips(live, gap, o);
  }

  /** An aborted loop aborts again: after it, an invocation without reset or
      override, facing the same files, stops at the same file with the same
      files remaining, however many files logs.json still lists behind it. */
  lemma AbortRecurs(st: Store, o: Oracle, listing: seq<string>)
    requires DiskLags(st, o)
    requires Run(st, o).live.filesRemaining != []
    ensures Session(Run(st, o).disk, false, false, None, listing, o).live.filesRemaining
         == Run(st, o).live.filesRemaining
  {
    var s := Run(st, o);
    RunKeepsLag(st, o);
    LaggingDiskHaltsAlike(s, o);
    assert Unreached(s.live.filesRemaining, o) == s.live.filesRemaining;
    var r := Recovered(s.disk, listing);
    assert r.live.filesRemaining == s.disk.filesRemaining;
    RunStops(BatchStarted(r), o);
  }

  /** An invocation bumps the batch number by one exactly when recovery
      leaves files to process. */
  lemma SessionCountsBatch(onDisk: ProgressLog, reset: bool, overrideFiles: bool, files: Option<seq<string>>,
                           listing: seq<string>, o: Oracle)
    ensures var r := Recovered(PreparedLog(onDisk, reset, overrideFiles, files), listing);
            Session(onDisk, reset, overrideFiles, files, listing, o).live.batchNo
              == r.live.batchNo + (if r.live.filesRemaining != [] then 1 else 0)
  {
    var r := Recovered(PreparedLog(onDisk, reset, overrideFiles, files), listing);
    if |r.live.filesRemaining| > 0 {
      RunOutcome(BatchStarted(r), o);
    }
  }

  /** The summary printed after a batch (only when the loop is not aborted)
      re-reads logs.json. It shows the
      batch number and the done list as they are in memory, but its errored
      list may lack a tail of files found missing after the last write. */
  lemma SessionSummaryLags(onDisk: ProgressLog, reset: bool, overrideFiles: bool, files: Option<seq<string>>,
                           listing: seq<string>, o: Oracle)
    requires Recovered(PreparedLog(onDisk, reset, overrideFiles, files), listing).live.filesRemaining != []
    ensures var s := Session(onDisk, reset, overrideFiles, files, listing, o);
            && s.disk.batchNo == s.live.batchNo
            && s.disk.filesDone == s.live.filesDone
            && |s.disk.filesErrored| <= |s.live.filesErrored|
            && s.live.filesErrored[..|s.disk.filesErrored|] == s.disk.filesErrored
  {
    var b := BatchStarted(Recovered(PreparedLog(onDisk, reset, overrideFiles, files), listing));
    WriteLags(b.live, o);
    RunKeepsLag(b, o);
    var s := Run(b, o);
    assert s.live.filesErrored == s.disk.filesErrored + Reverse(s.disk.filesRemaining[|s.live.filesRemaining|..]);
  }

  /** A worked scenario: a fresh log, a directory listing "a.jpg",
      "b.jpg" where only "a.jpg" exists and renders. "b.jpg" is taken first
      and errored, "a.jpg" is done, and logs.json ends equal to memory. */
  lemma SessionScenario()
    ensures var s := Session(EmptyLog, false, false, None, ["a.jpg", "b.jpg"],
                             Oracle(f => f == "a.jpg", f => true, f => true));
            && s.live == ProgressLog(1, [], ["a.jpg"], "", ["b.jpg"])
            && s.disk == s.live
  {
    var o := Oracle(f => f == "a.jpg", f => true, f => true);
    var r := Recovered(EmptyLog, ["a.jpg", "b.jpg"]);
    var s0 := BatchStarted(r);
    assert s0 == Write(ProgressLog(1, ["a.jpg", "b.jpg"], [], "", []));
    var s1 := Step(s0, o);
    assert s1.live == ProgressLog(1, ["a.jpg"], [], "", ["b.jpg"]);
    var s2 := Step(s1, o);
    assert s2 == Write(ProgressLog(1, [], ["a.jpg"], "", ["b.jpg"]));
  }
}
