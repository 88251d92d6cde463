/** The status a record keeps across a relaunch. The loop body of `main`
    stores the status it has just observed even after relaunching the child,
    so the new record starts out believing its child has already ended; if the
    new child ends before the next poll, that exit is never reported and the
    child is never relaunched again. Here the poll as written is set against
    the evidently intended one, which starts the new child with no status. */
module StatusAfterRelaunch {
  import opened Wrappers
  import opened Config
  import opened Events
  import opened Supervisor

  /** The evidently intended poll: as `PollRecord`, except that a record whose
      child has just been relaunched forgets the status of the old child. After
      a poll without a panic the record holds a status exactly when its current
      child has been seen ended and was not replaced. */
  function PollIntended(s: RecordState, input: PollInput): (r: PollResult)
    ensures !r.panicked ==> (r.state.prev.Some? <==> Exited(input) && r.commands == [])
  {
    var w := PollRecord(s, input);
    if |w.commands| == 1 && !w.panicked then w.(state := w.state.(prev := None)) else w
  }

  /** Number of polls in `ins` that find the child ended. */
  function CountExited(ins: seq<PollInput>): nat
    decreases |ins|
  {
    if ins == [] then 0
    else CountExited(ins[..|ins| - 1]) + (if Exited(ins[|ins| - 1]) then 1 else 0)
  }

  /** Every poll of `ins` finds the child ended. */
  lemma {:induction false} CountExitedAll(ins: seq<PollInput>)
    requires forall k | 0 <= k < |ins| :: Exited(ins[k])
    ensures CountExited(ins) == |ins|
    decreases |ins|
  {
    if ins != [] {
      var n := |ins| - 1;
      assert forall k | 0 <= k < n :: ins[..n][k] == ins[k];
      CountExitedAll(ins[..n]);
    }
  }

  /** The query succeeds and, if it finds the child ended, so does the
      relaunch. */
  predicate Answered(input: PollInput)
  {
    input.observed.Ok? && (Exited(input) ==> input.spawned.Ok?)
  }

  /** A poll under `Always` and with no remembered status, intended form: no
      status is kept, and each ended child is reported once and relaunched. */
  lemma IntendedPollAlways(s: RecordState, input: PollInput)
    requires s.config.restart == Always && s.prev.None?
    ensures var r := PollIntended(s, input);
      r.state.config == s.config
      && (r.panicked <==> !Answered(input))
      && (!r.panicked ==>
            r.state.prev.None?
            && CountStops(r.emitted) == (if Exited(input) then 1 else 0)
            && Count(r.emitted, Restarted) == (if Exited(input) then 1 else 0))
  {
    var r := PollIntended(s, input);
    if !r.panicked && Exited(input) {
      var stop := Classify(input.observed.value.value);
      CountStopThenRestart(Event(stop, s.config.name, s.child), Event(Restarted, s.config.name, input.spawned.value));
    }
  }

  /** With the intended poll and policy `Always`, a record that started with
      no remembered status never holds one, keeps its configuration, and
      panics exactly when a query fails or a relaunch after an observed exit
      fails. */
  lemma {:induction false} IntendedAlwaysForgetsStatus(s: RecordState, ins: seq<PollInput>)
    requires s.config.restart == Always && s.prev.None?
    ensures var r := Run(PollIntended, s, ins);
      r.state.config == s.config
      && (!r.panicked <==> forall k | 0 <= k < |ins| :: Answered(ins[k]))
      && (!r.panicked ==> r.state.prev.None?)
    decreases |ins|
  {
    if |ins| > 0 {
      var n := |ins| - 1;
      IntendedAlwaysForgetsStatus(s, ins[..n]);
      assert forall k | 0 <= k < n :: ins[..n][k] == ins[k];
      var pre := Run(PollIntended, s, ins[..n]);
      if !pre.panicked {
        IntendedPollAlways(pre.state, ins[n]);
      }
    }
  }

  /** With the intended poll and policy `Always`, a record that started with
      no remembered status reports every exit it observes as a stop, each
      followed by a `Restarted`. */
  lemma {:induction false} IntendedAlwaysReportsEveryExit(s: RecordState, ins: seq<PollInput>)
    requires s.config.restart == Always && s.prev.None?
    ensures var r := Run(PollIntended, s, ins);
      !r.panicked ==>
        CountStops(r.emitted) == CountExited(ins) && Count(r.emitted, Restarted) == CountExited(ins)
    decreases |ins|
  {
    if |ins| > 0 {
      var n := |ins| - 1;
      IntendedAlwaysReportsEveryExit(s, ins[..n]);
      IntendedAlwaysForgetsStatus(s, ins[..n]);
      var pre := Run(PollIntended, s, ins[..n]);
      if !pre.panicked {
        var p := PollIntended(pre.state, ins[n]);
        IntendedPollAlways(pre.state, ins[n]);
        CountAppend(pre.emitted, p.emitted, OkStopped);
        CountAppend(pre.emitted, p.emitted, ErrStopped);
        CountAppend(pre.emitted, p.emitted, Restarted);
      }
    }
  }

  /** As written, under `Always`: once a child has been relaunched, a new
      child that has ended by every later poll is never reported nor relaunched;
      of the `1 + |ins|` exits observed only the first is reported. */
  lemma QuickExitAfterRestartGoesUnreported(s: RecordState, first: PollInput, ins: seq<PollInput>)
    requires s.config.restart == Always && s.prev.None?
    requires Exited(first) && first.spawned.Ok?
    requires forall k | 0 <= k < |ins| :: Exited(ins[k])
    ensures var w := Run(PollRecord, s, [first] + ins);
      !w.panicked && CountStops(w.emitted) == 1 && CountExited([first] + ins) == 1 + |ins|
      && w.state.child == first.spawned.value && |w.commands| == 1
  {
    var p := PollRecord(s, first);
    assert Run(PollRecord, s, [first]) == p by {
      assert [first][..0] == [];
    }
    var stop := Classify(first.observed.value.value);
    var pid := first.spawned.value;
    assert p.emitted == [Event(stop, s.config.name, s.child), Event(Restarted, s.config.name, pid)];
    CountStopThenRestart(Event(stop, s.config.name, s.child), Event(Restarted, s.config.name, pid));
    StaleStatusStrandsRecord(p.state, ins);
    RunSplit(PollRecord, s, [first], ins);
    assert p.emitted + [] == p.emitted && p.commands + [] == p.commands;
    var all := [first] + ins;
    assert forall k | 0 <= k < |all| :: Exited(all[k]) by {
      assert forall k | 1 <= k < |all| :: all[k] == ins[k - 1];
    }
    CountExitedAll(all);
  }
}
