/** The per-record supervision state machine: one poll of one record (the body
    of the `for service in &mut servicevec` loop in `main`), and a record's
    history over several polls. */
module Supervisor {
  import opened Wrappers
  import opened Config
  import opened Events

  /** Value view of a `ChildAndConfig`: the pid of the child it owns, its task's
      configuration, and the status the previous poll observed. */
  datatype RecordState = RecordState(child: Pid, config: ProcessConfig, prev: Option<ExitStatus>)

  /** What the operating system answers during one poll of one record: the
      result of `try_wait` on the current child, and the result of spawning a
      replacement should the policy ask for one. */
  datatype PollInput = PollInput(observed: IoResult<Option<ExitStatus>>, spawned: IoResult<Pid>)

  /** The record after a poll (or several), the events reported and the spawn
      requests made, in order, and whether an `unwrap` panicked. After a panic
      nothing further happens: the supervisor is gone. */
  datatype PollResult = PollResult(state: RecordState, emitted: seq<Event>, commands: seq<Command>, panicked: bool)

  /** The stop event for an ended child: it depends only on whether an exit
      code exists, never on its value nor on the task's non-error codes. */
  function Classify(status: ExitStatus): (k: MajorEvent)
    ensures IsStop(k)
    ensures k == OkStopped <==> status.code.Some?
  {
    match status.code
    case Some(_) => OkStopped
    case None => ErrStopped
  }

  /** The restart policy table. */
  predicate Restarts(policy: RestartCondition, stop: MajorEvent)
  {
    match policy
    case Never => false
    case OnError => stop == ErrStopped
    case Always => true
  }

  /** `try_wait` reported an ended child. */
  predicate Exited(input: PollInput)
  {
    input.observed.Ok? && input.observed.value.Some?
  }

  /** `try_wait` reported a child still running. */
  predicate StillRunning(input: PollInput)
  {
    input.observed == Ok(None)
  }

  /** The child is seen ended now and was not seen ended by the previous poll. */
  predicate NewlyExited(s: RecordState, input: PollInput)
  {
    Exited(input) && s.prev.None?
  }

  /** One poll of one record, as the loop body of `main` does it: query the
      child; on a newly seen exit report the stop, and if the policy says so
      spawn the task's path again and report `Restarted` with the new pid;
      finally remember the observed status, even after a restart. */
  function PollRecord(s: RecordState, input: PollInput): PollResult
  {
    match input.observed
    case Err => PollResult(s, [], [], true)
    case Ok(observed) =>
      if observed.Some? && s.prev.None? then
        var stop := Classify(observed.value);
        var stopped := Event(stop, s.config.name, s.child);
        if Restarts(s.config.restart, stop) then
          var launch := NewProcess(s.config.path);
          match input.spawned
          case Err => PollResult(s, [stopped], [launch], true)
          case Ok(pid) =>
            PollResult(RecordState(pid, s.config, observed),
                       [stopped, Event(Restarted, s.config.name, pid)], [launch], false)
        else
          PollResult(s.(prev := observed), [stopped], [], false)
      else
        PollResult(s.(prev := observed), [], [], false)
  }

  /** Detection is edge-triggered: a poll reports something exactly when the
      child is seen ended and the previous poll had not seen it ended; a child
      already seen ended produces nothing and is not relaunched. */
  lemma PollIsEdgeTriggered(s: RecordState, input: PollInput)
    ensures var r := PollRecord(s, input);
      (r.emitted != [] <==> NewlyExited(s, input))
      && (Exited(input) && s.prev.Some? ==> r == PollResult(s.(prev := input.observed.value), [], [], false))
  {
  }

  /** One poll reports `[]`, `[stop]` or `[stop, Restarted]`: the stop carries
      the classification and the old pid, `Restarted` the new pid, and it is
      there exactly when a replacement was spawned successfully. */
  lemma PollReportsStopThenRestart(s: RecordState, input: PollInput)
    ensures var r := PollRecord(s, input);
      |r.emitted| <= 2
      && (NewlyExited(s, input) ==>
            r.emitted[0] == Event(Classify(input.observed.value.value), s.config.name, s.child))
      && (|r.emitted| == 2 <==> |r.commands| == 1 && !r.panicked)
      && (|r.emitted| == 2 ==>
            r.state.child == input.spawned.value
            && r.emitted[1] == Event(Restarted, s.config.name, r.state.child))
      && (|r.emitted| < 2 ==> r.state.child == s.child)
  {
  }

  /** A replacement is spawned exactly when a new exit is seen and the policy
      table says so for its classification; the spawn request is the task's
      path with no arguments. */
  lemma PollAppliesPolicy(s: RecordState, input: PollInput)
    ensures var r := PollRecord(s, input);
      |r.commands| <= 1
      && (|r.commands| == 1 <==>
            NewlyExited(s, input) && Restarts(s.config.restart, Classify(input.observed.value.value)))
      && (forall c | c in r.commands :: c == Command(s.config.path, []))
      && (s.config.restart == Never ==> r.commands == [] && r.state.child == s.child)
      && (s.config.restart == OnError ==>
            (|r.commands| == 1 <==>
               NewlyExited(s, input) && input.observed.value.value.code.None?))
      && (s.config.restart == Always ==> (|r.commands| == 1 <==> NewlyExited(s, input)))
  {
  }

  /** After a poll that did not panic the record remembers exactly the status
      just observed, also when it relaunched the child; the configuration never
      changes; a panic leaves the record as it was. */
  lemma PollStoresObservation(s: RecordState, input: PollInput)
    ensures var r := PollRecord(s, input);
      r.state.config == s.config
      && (r.panicked <==> input.observed.Err? || (|r.commands| == 1 && input.spawned.Err?))
      && (r.panicked ==> r.state == s)
      && (!r.panicked ==> r.state.prev == input.observed.value)
  {
  }

  /** The task's arguments and non-error codes are never consulted: two records
      that differ only in them poll identically. */
  lemma PollIgnoresArgumentsAndCodes(s: RecordState, input: PollInput, arguments: seq<string>, codes: seq<i8>)
    ensures var t := s.(config := s.config.(arguments := arguments, nonErrorCodes := codes));
      var r, q := PollRecord(s, input), PollRecord(t, input);
      q == r.(state := r.state.(config := t.config))
  {
  }

  /** A record's history over the polls `ins`, one poll after another with
      `step`, stopping at the first panic. */
  function Run(step: (RecordState, PollInput) -> PollResult, s: RecordState, ins: seq<PollInput>): PollResult
    decreases |ins|
  {
    if |ins| == 0 then PollResult(s, [], [], false)
    else
      var pre := Run(step, s, ins[..|ins| - 1]);
      if pre.panicked then pre
      else
        var p := step(pre.state, ins[|ins| - 1]);
        PollResult(p.state, pre.emitted + p.emitted, pre.commands + p.commands, p.panicked)
  }

  /** Continue the history `pre` with the polls `ins`. */
  function Resume(step: (RecordState, PollInput) -> PollResult, pre: PollResult, ins: seq<PollInput>): PollResult
  {
    if pre.panicked then pre
    else
      var r := Run(step, pre.state, ins);
      PollResult(r.state, pre.emitted + r.emitted, pre.commands + r.commands, r.panicked)
  }

  /** A history can be cut anywhere: polling `a` then `b` is polling `a + b`. */
  lemma {:induction false} RunSplit(step: (RecordState, PollInput) -> PollResult, s: RecordState, a: seq<PollInput>, b: seq<PollInput>)
    ensures Run(step, s, a + b) == Resume(step, Run(step, s, a), b)
    decreases |b|
  {
    var pre := Run(step, s, a);
    if |b| == 0 {
      assert a + b == a;
      assert pre.emitted + [] == pre.emitted && pre.commands + [] == pre.commands;
    } else {
      var n := |b| - 1;
      assert (a + b)[..|a + b| - 1] == a + b[..n];
      assert (a + b)[|a + b| - 1] == b[n];
      RunSplit(step, s, a, b[..n]);
      if !pre.panicked {
        var mid := Run(step, pre.state, b[..n]);
        if !mid.panicked {
          var p := step(mid.state, b[n]);
          assert pre.emitted + (mid.emitted + p.emitted) == (pre.emitted + mid.emitted) + p.emitted;
          assert pre.commands + (mid.commands + p.commands) == (pre.commands + mid.commands) + p.commands;
        }
      }
    }
  }

  /** Over a history the configuration never changes, and a history that did
      not panic saw only successful queries and ends remembering the last one. */
  lemma {:induction false} RunStoresLastObservation(s: RecordState, ins: seq<PollInput>)
    ensures var r := Run(PollRecord, s, ins);
      r.state.config == s.config
      && (!r.panicked ==>
            (forall k | 0 <= k < |ins| :: ins[k].observed.Ok?)
            && (|ins| > 0 ==> r.state.prev == ins[|ins| - 1].observed.value))
    decreases |ins|
  {
    if |ins| > 0 {
      var n := |ins| - 1;
      RunStoresLastObservation(s, ins[..n]);
      var pre := Run(PollRecord, s, ins[..n]);
      if !pre.panicked {
        PollStoresObservation(pre.state, ins[n]);
        assert forall k | 0 <= k < n :: ins[..n][k] == ins[k];
      }
    }
  }

  /** Whatever the policy, every `Restarted` in a record's history directly
      follows a stop of that task. */
  lemma {:induction false} RunLogWellFormed(s: RecordState, ins: seq<PollInput>)
    ensures RestartsFollowStops(Run(PollRecord, s, ins).emitted)
    decreases |ins|
  {
    if |ins| > 0 {
      var n := |ins| - 1;
      RunLogWellFormed(s, ins[..n]);
      RunStoresLastObservation(s, ins[..n]);
      var pre := Run(PollRecord, s, ins[..n]);
      if !pre.panicked {
        var p := PollRecord(pre.state, ins[n]);
        PollReportsStopThenRestart(pre.state, ins[n]);
        assert RestartsFollowStops(p.emitted);
        RestartsFollowStopsAppend(pre.emitted, p.emitted);
      }
    }
  }

  /** Whatever the policy, every spawn request in a record's history is the
      task's path with no arguments, and (barring a panic) each spawn is
      reported by exactly one `Restarted`. */
  lemma {:induction false} RunSpawnsPathsOnly(s: RecordState, ins: seq<PollInput>)
    ensures var r := Run(PollRecord, s, ins);
      (forall c | c in r.commands :: c == Command(s.config.path, []))
      && (!r.panicked ==> Count(r.emitted, Restarted) == |r.commands|)
    decreases |ins|
  {
    if |ins| > 0 {
      var n := |ins| - 1;
      RunSpawnsPathsOnly(s, ins[..n]);
      RunStoresLastObservation(s, ins[..n]);
      var pre := Run(PollRecord, s, ins[..n]);
      if !pre.panicked {
        var p := PollRecord(pre.state, ins[n]);
        PollReportsStopThenRestart(pre.state, ins[n]);
        PollAppliesPolicy(pre.state, ins[n]);
        CountAppend(pre.emitted, p.emitted, Restarted);
        if !p.panicked && p.emitted != [] {
          if |p.emitted| == 2 {
            assert p.emitted == [p.emitted[0], p.emitted[1]];
            CountStopThenRestart(p.emitted[0], p.emitted[1]);
          } else {
            assert p.emitted[1..] == [];
          }
        }
      }
    }
  }

  /** Policy `Never`: the child is never replaced and no `Restarted` is ever
      reported. */
  lemma {:induction false} NeverKeepsChild(s: RecordState, ins: seq<PollInput>)
    requires s.config.restart == Never
    ensures var r := Run(PollRecord, s, ins);
      r.state.child == s.child && r.commands == [] && Count(r.emitted, Restarted) == 0
    decreases |ins|
  {
    if |ins| > 0 {
      var n := |ins| - 1;
      NeverKeepsChild(s, ins[..n]);
      RunStoresLastObservation(s, ins[..n]);
      var pre := Run(PollRecord, s, ins[..n]);
      if !pre.panicked {
        var p := PollRecord(pre.state, ins[n]);
        PollAppliesPolicy(pre.state, ins[n]);
        PollReportsStopThenRestart(pre.state, ins[n]);
        CountAppend(pre.emitted, p.emitted, Restarted);
      }
    }
  }

  /** Once a child is seen ended, `try_wait` keeps reporting it ended. */
  predicate StaysExited(ins: seq<PollInput>)
  {
    forall i, j | 0 <= i < j < |ins| && Exited(ins[i]) :: !StillRunning(ins[j])
  }

  /** Policy `Never`: while the operating system keeps reporting an ended child
      as ended, the record reports at most one stop, and only after an exit was
      observed. */
  lemma {:induction false} NeverReportsAtMostOneStop(s: RecordState, ins: seq<PollInput>)
    requires s.config.restart == Never
    requires StaysExited(ins)
    ensures var r := Run(PollRecord, s, ins);
      CountStops(r.emitted) <= 1
      && (CountStops(r.emitted) == 1 ==> exists i | 0 <= i < |ins| :: Exited(ins[i]))
    decreases |ins|
  {
    if |ins| > 0 {
      var n := |ins| - 1;
      assert StaysExited(ins[..n]) by {
        forall i, j | 0 <= i < j < n && Exited(ins[..n][i]) ensures !StillRunning(ins[..n][j]) {
          assert ins[..n][i] == ins[i] && ins[..n][j] == ins[j];
        }
      }
      NeverReportsAtMostOneStop(s, ins[..n]);
      RunStoresLastObservation(s, ins[..n]);
      var pre := Run(PollRecord, s, ins[..n]);
      if !pre.panicked {
        var p := PollRecord(pre.state, ins[n]);
        PollAppliesPolicy(pre.state, ins[n]);
        PollReportsStopThenRestart(pre.state, ins[n]);
        PollIsEdgeTriggered(pre.state, ins[n]);
        CountAppend(pre.emitted, p.emitted, OkStopped);
        CountAppend(pre.emitted, p.emitted, ErrStopped);
        if CountStops(pre.emitted) == 1 {
          var i :| 0 <= i < n && Exited(ins[..n][i]);
          assert Exited(ins[i]);
          assert Exited(ins[n - 1]) by {
            if i < n - 1 {
              assert !StillRunning(ins[n - 1]);
            }
          }
          assert pre.state.prev.Some?;
          if Exited(ins[n]) {
            assert p.emitted == [];
          }
          assert p.emitted == [];
        } else {
          assert |p.emitted| <= 1;
          if p.emitted != [] {
            assert Exited(ins[n]);
          }
        }
      }
    }
  }

  /** Whatever the policy, a record that starts with no remembered status
      reports the first exit it observes: a history without a panic in which
      some poll found the child ended holds at least one stop. */
  lemma {:induction false} RunReportsFirstExit(s: RecordState, ins: seq<PollInput>)
    requires s.prev.None?
    ensures var r := Run(PollRecord, s, ins);
      !r.panicked && (exists i | 0 <= i < |ins| :: Exited(ins[i])) ==> CountStops(r.emitted) >= 1
    decreases |ins|
  {
    var r := Run(PollRecord, s, ins);
    if |ins| > 0 && !r.panicked && exists i | 0 <= i < |ins| :: Exited(ins[i]) {
      var n := |ins| - 1;
      var pre := Run(PollRecord, s, ins[..n]);
      assert !pre.panicked;
      var p := PollRecord(pre.state, ins[n]);
      CountAppend(pre.emitted, p.emitted, OkStopped);
      CountAppend(pre.emitted, p.emitted, ErrStopped);
      if exists i | 0 <= i < n :: Exited(ins[..n][i]) {
        RunReportsFirstExit(s, ins[..n]);
      } else {
        assert Exited(ins[n]);
        assert pre.state.prev.None? by {
          RunStoresLastObservation(s, ins[..n]);
          if n > 0 {
            assert !Exited(ins[..n][n - 1]);
          }
        }
        assert IsStop(p.emitted[0].kind) by {
          PollReportsStopThenRestart(pre.state, ins[n]);
        }
      }
    }
  }

  /** Policy `Never`: while the operating system keeps reporting an ended child
      as ended, a record that starts with no remembered status reports exactly
      one stop once its child is seen ended, and none before. */
  lemma NeverReportsExactlyOneStop(s: RecordState, ins: seq<PollInput>)
    requires s.config.restart == Never && s.prev.None?
    requires StaysExited(ins)
    ensures var r := Run(PollRecord, s, ins);
      !r.panicked ==>
        (CountStops(r.emitted) == 1 <==> exists i | 0 <= i < |ins| :: Exited(ins[i]))
        && CountStops(r.emitted) <= 1
  {
    NeverReportsAtMostOneStop(s, ins);
    RunReportsFirstExit(s, ins);
  }

  /** Policy `OnError`: every `Restarted` directly follows an `ErrStopped`. */
  lemma {:induction false} OnErrorRestartsFollowErrors(s: RecordState, ins: seq<PollInput>)
    requires s.config.restart == OnError
    ensures RestartsFollowOnly(Run(PollRecord, s, ins).emitted, ErrStopped)
    decreases |ins|
  {
    if |ins| > 0 {
      var n := |ins| - 1;
      OnErrorRestartsFollowErrors(s, ins[..n]);
      RunStoresLastObservation(s, ins[..n]);
      var pre := Run(PollRecord, s, ins[..n]);
      if !pre.panicked {
        var p := PollRecord(pre.state, ins[n]);
        PollAppliesPolicy(pre.state, ins[n]);
        PollReportsStopThenRestart(pre.state, ins[n]);
        assert RestartsFollowOnly(p.emitted, ErrStopped);
        RestartsFollowOnlyAppend(pre.emitted, p.emitted, ErrStopped);
      }
    }
  }

  /** Policy `OnError`: a `Restarted` never follows an `OkStopped`; a child
      that ended with an exit code is not relaunched. */
  lemma OnErrorRestartsOnlyAfterErrors(s: RecordState, ins: seq<PollInput>)
    requires s.config.restart == OnError
    ensures var log := Run(PollRecord, s, ins).emitted;
      forall i | 0 <= i < |log| - 1 && log[i].kind == OkStopped :: log[i + 1].kind != Restarted
  {
    OnErrorRestartsFollowErrors(s, ins);
  }

  /** Policy `OnError`: barring a panic, every `ErrStopped` is directly
      followed by a `Restarted`. */
  lemma {:induction false} OnErrorRelaunchesEveryError(s: RecordState, ins: seq<PollInput>)
    requires s.config.restart == OnError
    ensures var r := Run(PollRecord, s, ins);
      !r.panicked ==> RestartedAfter(r.emitted, ErrStopped)
    decreases |ins|
  {
    if |ins| > 0 {
      var n := |ins| - 1;
      OnErrorRelaunchesEveryError(s, ins[..n]);
      RunStoresLastObservation(s, ins[..n]);
      var pre := Run(PollRecord, s, ins[..n]);
      if !pre.panicked {
        var p := PollRecord(pre.state, ins[n]);
        PollAppliesPolicy(pre.state, ins[n]);
        PollReportsStopThenRestart(pre.state, ins[n]);
        if !p.panicked {
          assert RestartedAfter(p.emitted, ErrStopped);
          RestartedAfterAppend(pre.emitted, p.emitted, ErrStopped);
        }
      }
    }
  }

  /** Policy `Always`: barring a panic, every stop, whatever its
      classification, is directly followed by a `Restarted`. */
  lemma {:induction false} AlwaysRestartsAfterEveryStop(s: RecordState, ins: seq<PollInput>)
    requires s.config.restart == Always
    ensures var r := Run(PollRecord, s, ins);
      !r.panicked ==> RestartedAfter(r.emitted, OkStopped) && RestartedAfter(r.emitted, ErrStopped)
    decreases |ins|
  {
    if |ins| > 0 {
      var n := |ins| - 1;
      AlwaysRestartsAfterEveryStop(s, ins[..n]);
      RunStoresLastObservation(s, ins[..n]);
      var pre := Run(PollRecord, s, ins[..n]);
      if !pre.panicked {
        var p := PollRecord(pre.state, ins[n]);
        PollAppliesPolicy(pre.state, ins[n]);
        PollReportsStopThenRestart(pre.state, ins[n]);
        if !p.panicked {
          assert RestartedAfter(p.emitted, OkStopped) && RestartedAfter(p.emitted, ErrStopped);
          RestartedAfterAppend(pre.emitted, p.emitted, OkStopped);
          RestartedAfterAppend(pre.emitted, p.emitted, ErrStopped);
        }
      }
    }
  }

  /** A record that remembers an ended status while every later poll finds its
      child ended is never reported, relaunched or changed again: the status
      kept after a restart hides any exit of the new child that happens before
      the next poll. */
  lemma {:induction false} StaleStatusStrandsRecord(s: RecordState, ins: seq<PollInput>)
    requires s.prev.Some?
    requires forall k | 0 <= k < |ins| :: Exited(ins[k])
    ensures var r := Run(PollRecord, s, ins);
      r.emitted == [] && r.commands == [] && !r.panicked
      && r.state.child == s.child && r.state.config == s.config && r.state.prev.Some?
    decreases |ins|
  {
    if |ins| > 0 {
      var n := |ins| - 1;
      StaleStatusStrandsRecord(s, ins[..n]);
      var pre := Run(PollRecord, s, ins[..n]);
      assert Exited(ins[n]);
      PollIsEdgeTriggered(pre.state, ins[n]);
    }
  }
}
