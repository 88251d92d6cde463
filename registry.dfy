/** The registry of supervised records as values: how `start_services` builds
    it, how one pass of `main`'s loop (a cycle) updates it, and how several
    cycles do. */
module Registry {
  import opened Wrappers
  import opened Config
  import opened Events
  import opened Supervisor

  /** The records' values after an operation on the whole registry, with the
      events reported and the spawn requests made, in order, and whether an
      `unwrap` panicked. */
  datatype Outcome = Outcome(states: seq<RecordState>, emitted: seq<Event>, commands: seq<Command>, panicked: bool)

  /** `start_services`: for each task in input order, spawn its path, make a
      record with no observed status, report `Started` with the new pid. A
      failed spawn panics. */
  function Start(tasks: seq<ProcessConfig>, spawned: seq<IoResult<Pid>>): (r: Outcome)
    requires |spawned| == |tasks|
    ensures |r.states| <= |tasks|
    decreases |tasks|
  {
    if |tasks| == 0 then Outcome([], [], [], false)
    else
      var n := |tasks| - 1;
      var pre := Start(tasks[..n], spawned[..n]);
      if pre.panicked then pre
      else
        var launched := pre.commands + [NewProcess(tasks[n].path)];
        match spawned[n]
        case Err => pre.(commands := launched, panicked := true)
        case Ok(pid) =>
          Outcome(pre.states + [RecordState(pid, tasks[n], None)],
                  pre.emitted + [Event(Started, tasks[n].name, pid)], launched, false)
  }

  /** `start_services` makes one record per task, in input order, each with
      no observed status and the pid its spawn returned, and reports one
      `Started` per record in the same order, carrying that pid. */
  lemma {:induction false} StartRecordsEachTask(tasks: seq<ProcessConfig>, spawned: seq<IoResult<Pid>>)
    requires |spawned| == |tasks|
    ensures var r := Start(tasks, spawned);
      |r.emitted| == |r.states|
      && (!r.panicked ==> |r.states| == |tasks|)
      && forall i | 0 <= i < |r.states| ::
           spawned[i].Ok?
           && r.states[i] == RecordState(spawned[i].value, tasks[i], None)
           && r.emitted[i] == Event(Started, tasks[i].name, spawned[i].value)
    decreases |tasks|
  {
    if |tasks| > 0 {
      var n := |tasks| - 1;
      StartRecordsEachTask(tasks[..n], spawned[..n]);
      assert forall i | 0 <= i < n :: tasks[..n][i] == tasks[i] && spawned[..n][i] == spawned[i];
    }
  }

  /** `start_services` panics exactly when some spawn fails, and then at the
      first failure: every task before it has its record, none after it. */
  lemma {:induction false} StartPanicsAtFirstFailure(tasks: seq<ProcessConfig>, spawned: seq<IoResult<Pid>>)
    requires |spawned| == |tasks|
    ensures var r := Start(tasks, spawned);
      (r.panicked <==> |r.states| < |tasks|)
      && (r.panicked <==> exists i | 0 <= i < |tasks| :: spawned[i].Err?)
      && (r.panicked ==> spawned[|r.states|].Err?)
    decreases |tasks|
  {
    if |tasks| > 0 {
      var n := |tasks| - 1;
      StartPanicsAtFirstFailure(tasks[..n], spawned[..n]);
      StartRecordsEachTask(tasks, spawned);
      var pre := Start(tasks[..n], spawned[..n]);
      if pre.panicked {
        var j :| 0 <= j < n && spawned[..n][j].Err?;
        assert spawned[j].Err?;
        assert spawned[..n][|pre.states|] == spawned[|pre.states|];
      } else {
        assert forall i | 0 <= i < n :: spawned[..n][i] == spawned[i];
      }
    }
  }

  /** `start_services` asks for one spawn per task it reaches, in input order,
      each for the task's path with no arguments; a failed spawn is the last. */
  lemma {:induction false} StartSpawnsPathsOnly(tasks: seq<ProcessConfig>, spawned: seq<IoResult<Pid>>)
    requires |spawned| == |tasks|
    ensures var r := Start(tasks, spawned);
      |r.commands| == (if r.panicked then |r.states| + 1 else |tasks|)
      && forall i | 0 <= i < |r.commands| :: r.commands[i] == Command(tasks[i].path, [])
    decreases |tasks|
  {
    if |tasks| > 0 {
      var n := |tasks| - 1;
      StartSpawnsPathsOnly(tasks[..n], spawned[..n]);
      StartPanicsAtFirstFailure(tasks[..n], spawned[..n]);
      assert forall i | 0 <= i < n :: tasks[..n][i] == tasks[i];
    }
  }

  /** Unfolding `Start` one task further along the input. */
  lemma StartStep(tasks: seq<ProcessConfig>, spawned: seq<IoResult<Pid>>, i: nat)
    requires |spawned| == |tasks| && i < |tasks|
    ensures var pre := Start(tasks[..i], spawned[..i]);
      var launched := pre.commands + [NewProcess(tasks[i].path)];
      Start(tasks[..i + 1], spawned[..i + 1])
        == if pre.panicked then pre
           else if spawned[i].Err? then pre.(commands := launched, panicked := true)
           else Outcome(pre.states + [RecordState(spawned[i].value, tasks[i], None)],
                        pre.emitted + [Event(Started, tasks[i].name, spawned[i].value)], launched, false)
  {
    assert tasks[..i + 1][..i] == tasks[..i] && spawned[..i + 1][..i] == spawned[..i];
    assert tasks[..i + 1][i] == tasks[i] && spawned[..i + 1][i] == spawned[i];
  }

  /** Once `start_services` has panicked, later tasks change nothing. */
  lemma {:induction false} StartPanicSticks(tasks: seq<ProcessConfig>, spawned: seq<IoResult<Pid>>, k: nat)
    requires |spawned| == |tasks| && k <= |tasks|
    requires Start(tasks[..k], spawned[..k]).panicked
    ensures Start(tasks, spawned) == Start(tasks[..k], spawned[..k])
    decreases |tasks| - k
  {
    if k < |tasks| {
      var m := |tasks| - 1;
      assert tasks[..m][..k] == tasks[..k] && spawned[..m][..k] == spawned[..k];
      StartStep(tasks, spawned, m);
      StartPanicSticks(tasks[..m], spawned[..m], k);
      assert tasks[..m + 1] == tasks && spawned[..m + 1] == spawned;
    } else {
      assert tasks[..k] == tasks && spawned[..k] == spawned;
    }
  }

  /** One cycle: poll every record in registry order, each with its own
      answers from the operating system, stopping at the first panic. */
  function Cycle(rs: seq<RecordState>, ins: seq<PollInput>): (c: Outcome)
    requires |ins| == |rs|
    ensures |c.states| == |rs|
    decreases |rs|
  {
    if |rs| == 0 then Outcome([], [], [], false)
    else
      var n := |rs| - 1;
      var pre := Cycle(rs[..n], ins[..n]);
      if pre.panicked then pre.(states := pre.states + [rs[n]])
      else
        var p := PollRecord(rs[n], ins[n]);
        Outcome(pre.states + [p.state], pre.emitted + p.emitted, pre.commands + p.commands, p.panicked)
  }

  /** Unfolding `Cycle` one record further along the registry. */
  lemma CycleStep(rs: seq<RecordState>, ins: seq<PollInput>, i: nat)
    requires |ins| == |rs| && i < |rs|
    ensures var pre, p := Cycle(rs[..i], ins[..i]), PollRecord(rs[i], ins[i]);
      Cycle(rs[..i + 1], ins[..i + 1])
        == if pre.panicked then pre.(states := pre.states + [rs[i]])
           else Outcome(pre.states + [p.state], pre.emitted + p.emitted, pre.commands + p.commands, p.panicked)
  {
    assert rs[..i + 1][..i] == rs[..i] && ins[..i + 1][..i] == ins[..i];
    assert rs[..i + 1][i] == rs[i] && ins[..i + 1][i] == ins[i];
  }

  /** The step of a cycle that polls record `|done|`, given what that poll did. */
  lemma CycleStepPolled(rs: seq<RecordState>, ins: seq<PollInput>, done: seq<RecordState>,
                        emitted: seq<Event>, commands: seq<Command>, p: PollResult)
    requires |ins| == |rs| && |done| < |rs|
    requires Cycle(rs[..|done|], ins[..|done|]) == Outcome(done, emitted, commands, false)
    requires PollRecord(rs[|done|], ins[|done|]) == p
    ensures p.panicked ==> p.state == rs[|done|]
    ensures Cycle(rs[..|done| + 1], ins[..|done| + 1])
              == Outcome(done + [p.state], emitted + p.emitted, commands + p.commands, p.panicked)
  {
    CycleStep(rs, ins, |done|);
    PollStoresObservation(rs[|done|], ins[|done|]);
  }

  /** The events of several polls, one poll after another. */
  function EmittedOf(ps: seq<PollResult>): seq<Event>
  {
    if ps == [] then [] else EmittedOf(ps[..|ps| - 1]) + ps[|ps| - 1].emitted
  }

  /** Each record polled on its own. */
  function PolledAlone(rs: seq<RecordState>, ins: seq<PollInput>): (ps: seq<PollResult>)
    requires |ins| == |rs|
    ensures |ps| == |rs|
  {
    seq(|rs|, i requires 0 <= i < |rs| => PollRecord(rs[i], ins[i]))
  }

  /** A cycle never changes a record's configuration. */
  lemma {:induction false} CycleKeepsConfigs(rs: seq<RecordState>, ins: seq<PollInput>)
    requires |ins| == |rs|
    ensures forall i | 0 <= i < |rs| :: Cycle(rs, ins).states[i].config == rs[i].config
    decreases |rs|
  {
    if |rs| > 0 {
      var n := |rs| - 1;
      CycleKeepsConfigs(rs[..n], ins[..n]);
      PollStoresObservation(rs[n], ins[n]);
    }
  }

  /** Records are supervised independently and in registry order: a cycle
      panics exactly when polling some record alone would, and a cycle without
      a panic leaves every record exactly as polling it alone would and reports
      the records' own events one record after another. */
  lemma {:induction false} CyclePollsEachRecordAlone(rs: seq<RecordState>, ins: seq<PollInput>)
    requires |ins| == |rs|
    ensures var c, ps := Cycle(rs, ins), PolledAlone(rs, ins);
      (!c.panicked <==> forall i | 0 <= i < |rs| :: !ps[i].panicked)
      && (!c.panicked ==>
            c.emitted == EmittedOf(ps)
            && forall i | 0 <= i < |rs| :: c.states[i] == ps[i].state)
    decreases |rs|
  {
    if |rs| > 0 {
      var n := |rs| - 1;
      CyclePollsEachRecordAlone(rs[..n], ins[..n]);
      var ps := PolledAlone(rs, ins);
      assert PolledAlone(rs[..n], ins[..n]) == ps[..n];
      if Cycle(rs[..n], ins[..n]).panicked {
        var i :| 0 <= i < n && ps[..n][i].panicked;
        assert ps[i].panicked;
      } else {
        assert ps[n] == PollRecord(rs[n], ins[n]);
        assert forall i | 0 <= i < n :: ps[..n][i] == ps[i];
      }
    }
  }

  /** A cycle whose first `j` polls went through and whose poll of record `j`
      panics ends there, leaving record `j` onwards as they were. */
  lemma CyclePanicsAt(rs: seq<RecordState>, ins: seq<PollInput>, j: nat)
    requires |ins| == |rs| && j < |rs|
    requires !Cycle(rs[..j], ins[..j]).panicked
    requires PollRecord(rs[j], ins[j]).panicked
    ensures var pre, p := Cycle(rs[..j], ins[..j]), PollRecord(rs[j], ins[j]);
      Cycle(rs, ins) == Outcome(pre.states + [rs[j]] + rs[j + 1..], pre.emitted + p.emitted, pre.commands + p.commands, true)
  {
    var pre, p := Cycle(rs[..j], ins[..j]), PollRecord(rs[j], ins[j]);
    CycleStepPolled(rs, ins, pre.states, pre.emitted, pre.commands, p);
    CyclePanicSticks(rs, ins, j + 1);
  }

  /** Records spliced in after position `j` keep their values there. */
  lemma SplicedFrom(states: seq<RecordState>, done: seq<RecordState>, rs: seq<RecordState>)
    requires |done| < |rs|
    requires states == done + [rs[|done|]] + rs[|done| + 1..]
    ensures forall i | |done| <= i < |rs| :: states[i] == rs[i]
  {
    forall i | |done| < i < |rs|
      ensures states[i] == rs[i]
    {
      assert states[i] == rs[|done| + 1..][i - |done| - 1];
    }
  }

  /** When record `j` is the first whose poll panics, the cycle panics there:
      the records before it have been polled as alone, it and those after it
      are untouched, and the events reported are those of records `0..j`. */
  lemma CycleStopsAtFirstPanic(rs: seq<RecordState>, ins: seq<PollInput>, j: nat)
    requires |ins| == |rs| && j < |rs|
    requires PollRecord(rs[j], ins[j]).panicked
    requires forall i | 0 <= i < j :: !PollRecord(rs[i], ins[i]).panicked
    ensures var c, ps := Cycle(rs, ins), PolledAlone(rs, ins);
      c.panicked
      && c.emitted == EmittedOf(ps[..j + 1])
      && (forall i | 0 <= i < j :: c.states[i] == ps[i].state)
      && (forall i | j <= i < |rs| :: c.states[i] == rs[i])
  {
    var ps, c := PolledAlone(rs, ins), Cycle(rs, ins);
    var pre, p := Cycle(rs[..j], ins[..j]), ps[j];
    assert !pre.panicked && pre.emitted == EmittedOf(ps[..j])
      && forall i | 0 <= i < j :: pre.states[i] == ps[i].state
    by {
      CyclePollsEachRecordAlone(rs[..j], ins[..j]);
      assert PolledAlone(rs[..j], ins[..j]) == ps[..j];
    }
    CyclePanicsAt(rs, ins, j);
    SplicedFrom(c.states, pre.states, rs);
    assert ps[..j + 1][..j] == ps[..j];
  }

  /** A cycle's report is well formed: every `Restarted` directly follows a
      stop of the same task. */
  lemma {:induction false} CycleLogWellFormed(rs: seq<RecordState>, ins: seq<PollInput>)
    requires |ins| == |rs|
    ensures RestartsFollowStops(Cycle(rs, ins).emitted)
    decreases |rs|
  {
    if |rs| > 0 {
      var n := |rs| - 1;
      CycleLogWellFormed(rs[..n], ins[..n]);
      var pre := Cycle(rs[..n], ins[..n]);
      if !pre.panicked {
        var p := PollRecord(rs[n], ins[n]);
        RunLogWellFormed(rs[n], [ins[n]]);
        assert Run(PollRecord, rs[n], [ins[n]]).emitted == p.emitted by {
          assert [ins[n]][..0] == [];
        }
        RestartsFollowStopsAppend(pre.emitted, p.emitted);
      }
    }
  }

  /** Appending the last record after the records `k..` of the others. */
  lemma AppendLast(done: seq<RecordState>, rs: seq<RecordState>, k: nat)
    requires k < |rs|
    ensures done + rs[..|rs| - 1][k..] + [rs[|rs| - 1]] == done + rs[k..]
  {
    assert rs[..|rs| - 1][k..] + [rs[|rs| - 1]] == rs[k..];
  }

  /** Once a cycle has panicked, the later records are left untouched. */
  lemma {:induction false} CyclePanicSticks(rs: seq<RecordState>, ins: seq<PollInput>, k: nat)
    requires |ins| == |rs| && k <= |rs|
    requires Cycle(rs[..k], ins[..k]).panicked
    ensures var pre := Cycle(rs[..k], ins[..k]);
      Cycle(rs, ins) == pre.(states := pre.states + rs[k..])
    decreases |rs| - k
  {
    var pre := Cycle(rs[..k], ins[..k]);
    if k < |rs| {
      var m := |rs| - 1;
      assert rs[..m][..k] == rs[..k] && ins[..m][..k] == ins[..k];
      CyclePanicSticks(rs[..m], ins[..m], k);
      AppendLast(pre.states, rs, k);
    } else {
      assert rs[..k] == rs && ins[..k] == ins;
      assert pre.states + rs[k..] == pre.states;
    }
  }

  /** Every round has one answer per record. */
  predicate Rectangular(rounds: seq<seq<PollInput>>, width: nat)
  {
    forall k | 0 <= k < |rounds| :: |rounds[k]| == width
  }

  /** `main`'s loop, bounded to the given rounds: one cycle per round,
      stopping at the first panic. */
  function Cycles(rs: seq<RecordState>, rounds: seq<seq<PollInput>>): (c: Outcome)
    requires Rectangular(rounds, |rs|)
    ensures |c.states| == |rs|
    decreases |rounds|
  {
    if |rounds| == 0 then Outcome(rs, [], [], false)
    else
      var n := |rounds| - 1;
      var pre := Cycles(rs, rounds[..n]);
      if pre.panicked then pre
      else
        var c := Cycle(pre.states, rounds[n]);
        Outcome(c.states, pre.emitted + c.emitted, pre.commands + c.commands, c.panicked)
  }

  /** Unfolding `Cycles` one round further. */
  lemma CyclesStep(rs: seq<RecordState>, rounds: seq<seq<PollInput>>, k: nat)
    requires Rectangular(rounds, |rs|) && k < |rounds|
    ensures Rectangular(rounds[..k], |rs|) && Rectangular(rounds[..k + 1], |rs|)
    ensures var pre := Cycles(rs, rounds[..k]);
      var c := Cycle(pre.states, rounds[k]);
      Cycles(rs, rounds[..k + 1])
        == if pre.panicked then pre
           else Outcome(c.states, pre.emitted + c.emitted, pre.commands + c.commands, c.panicked)
  {
    assert rounds[..k + 1][..k] == rounds[..k] && rounds[..k + 1][k] == rounds[k];
  }

  /** The answers record `i` receives, round after round. */
  function Column(rounds: seq<seq<PollInput>>, i: nat): (col: seq<PollInput>)
    requires forall k | 0 <= k < |rounds| :: i < |rounds[k]|
    ensures |col| == |rounds|
  {
    seq(|rounds|, k requires 0 <= k < |rounds| => rounds[k][i])
  }

  /** Records evolve independently across cycles as well: after several
      cycles without a panic, each record is exactly where its own history of
      polls alone takes it. */
  lemma {:induction false} CyclesFollowEachRecord(rs: seq<RecordState>, rounds: seq<seq<PollInput>>)
    requires Rectangular(rounds, |rs|)
    ensures var c := Cycles(rs, rounds);
      !c.panicked ==>
        forall i | 0 <= i < |rs| ::
          !Run(PollRecord, rs[i], Column(rounds, i)).panicked
          && c.states[i] == Run(PollRecord, rs[i], Column(rounds, i)).state
    decreases |rounds|
  {
    var c := Cycles(rs, rounds);
    if |rounds| > 0 && !c.panicked {
      var n := |rounds| - 1;
      assert Rectangular(rounds[..n], |rs|);
      CyclesFollowEachRecord(rs, rounds[..n]);
      var pre := Cycles(rs, rounds[..n]);
      CyclePollsEachRecordAlone(pre.states, rounds[n]);
      forall i | 0 <= i < |rs|
        ensures !Run(PollRecord, rs[i], Column(rounds, i)).panicked
        ensures c.states[i] == Run(PollRecord, rs[i], Column(rounds, i)).state
      {
        var col := Column(rounds, i);
        assert col[..n] == Column(rounds[..n], i);
        assert col[n] == rounds[n][i];
        var before := Run(PollRecord, rs[i], col[..n]);
        assert !before.panicked && before.state == pre.states[i];
        var p := PollRecord(pre.states[i], rounds[n][i]);
        assert p == PolledAlone(pre.states, rounds[n])[i];
        assert !p.panicked && c.states[i] == p.state;
        assert Run(PollRecord, rs[i], col) == PollResult(p.state, before.emitted + p.emitted, before.commands + p.commands, p.panicked);
      }
    }
  }

  /** The report of several cycles is well formed too. */
  lemma {:induction false} CyclesLogWellFormed(rs: seq<RecordState>, rounds: seq<seq<PollInput>>)
    requires Rectangular(rounds, |rs|)
    ensures RestartsFollowStops(Cycles(rs, rounds).emitted)
    decreases |rounds|
  {
    if |rounds| > 0 {
      var n := |rounds| - 1;
      assert Rectangular(rounds[..n], |rs|);
      CyclesLogWellFormed(rs, rounds[..n]);
      var pre := Cycles(rs, rounds[..n]);
      if !pre.panicked {
        CycleLogWellFormed(pre.states, rounds[n]);
        RestartsFollowStopsAppend(pre.emitted, Cycle(pre.states, rounds[n]).emitted);
      }
    }
  }

  /** Once the loop has panicked, later rounds change nothing. */
  lemma {:induction false} CyclesPanicSticks(rs: seq<RecordState>, rounds: seq<seq<PollInput>>, k: nat)
    requires Rectangular(rounds, |rs|) && k <= |rounds|
    requires Rectangular(rounds[..k], |rs|)
    requires Cycles(rs, rounds[..k]).panicked
    ensures Cycles(rs, rounds) == Cycles(rs, rounds[..k])
    decreases |rounds| - k
  {
    if k < |rounds| {
      var m := |rounds| - 1;
      assert rounds[..m][..k] == rounds[..k];
      CyclesStep(rs, rounds, m);
      CyclesPanicSticks(rs, rounds[..m], k);
      assert rounds[..m + 1] == rounds;
    } else {
      assert rounds[..k] == rounds;
    }
  }
}
