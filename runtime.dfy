/** The supervisor's mutable state: the `ChildAndConfig` records, the vector
    `start_services` builds, and `main`'s loop updating the records in place. */
module Runtime {
  import opened Wrappers
  import opened Config
  import opened Events
  import opened Supervisor
  import opened Registry

  /** A supervised record (`ChildAndConfig`): the child it owns, its task's
      configuration and the status seen by the previous poll. */
  class Record {
    var child: Pid
    var config: ProcessConfig
    var prev: Option<ExitStatus>

    function State(): RecordState
      reads this
    {
      RecordState(child, config, prev)
    }

    constructor (config: ProcessConfig, child: Pid)
      ensures State() == RecordState(child, config, None)
    {
      this.child := child;
      this.config := config;
      this.prev := None;
    }

    /** One pass of the loop body of `main` over this record. */
    method Poll(input: PollInput) returns (emitted: seq<Event>, commands: seq<Command>, panicked: bool)
      modifies this
      ensures PollRecord(old(State()), input) == PollResult(State(), emitted, commands, panicked)
    {
      emitted, commands, panicked := [], [], false;
      if input.observed.Err? {
        panicked := true;
        return;
      }
      var status := input.observed.value;
      if status.Some? && prev.None? {
        var stop := Classify(status.value);
        emitted := [Event(stop, config.name, child)];
        var relaunch := match config.restart
          case Never => false
          case OnError => stop == ErrStopped
          case Always => true;
        if relaunch {
          commands := [NewProcess(config.path)];
          if input.spawned.Err? {
            panicked := true;
            return;
          }
          child := input.spawned.value;
          emitted := emitted + [Event(Restarted, config.name, child)];
        }
      }
      prev := status;
    }
  }

  /** The records' values, in order. */
  function StatesOf(rs: seq<Record>): (ss: seq<RecordState>)
    reads rs
    ensures |ss| == |rs|
  {
    seq(|rs|, i requires 0 <= i < |rs| reads rs => rs[i].State())
  }

  /** Records whose values agree one by one with `ss` have the values `ss`. */
  lemma StatesOfPointwise(rs: seq<Record>, ss: seq<RecordState>)
    requires |rs| == |ss|
    requires forall k | 0 <= k < |rs| :: rs[k].State() == ss[k]
    ensures StatesOf(rs) == ss
  {
  }

  /** Records agreeing with `done` up to some point and with `rs` from there
      on have those values. */
  lemma StatesOfSplice(records: seq<Record>, done: seq<RecordState>, rs: seq<RecordState>)
    requires |done| < |records| == |rs|
    requires forall k | 0 <= k < |done| :: records[k].State() == done[k]
    requires forall k | |done| <= k < |records| :: records[k].State() == rs[k]
    ensures StatesOf(records) == done + [rs[|done|]] + rs[|done| + 1..]
  {
  }

  /** A cycle that panicked at record `|done|` leaves the records from there
      on as they were. */
  lemma CycleEndsAtPanic(records: seq<Record>, rs: seq<RecordState>, inputs: seq<PollInput>,
                         done: seq<RecordState>, emitted: seq<Event>, commands: seq<Command>)
    requires |inputs| == |rs| == |records| && |done| < |rs|
    requires Cycle(rs[..|done| + 1], inputs[..|done| + 1]) == Outcome(done + [rs[|done|]], emitted, commands, true)
    requires forall k | 0 <= k < |done| :: records[k].State() == done[k]
    requires forall k | |done| <= k < |records| :: records[k].State() == rs[k]
    ensures Cycle(rs, inputs) == Outcome(StatesOf(records), emitted, commands, true)
  {
    CyclePanicSticks(rs, inputs, |done| + 1);
    StatesOfSplice(records, done, rs);
  }

  /** No record appears twice: the vector owns each of its records. */
  predicate Distinct(rs: seq<Record>)
  {
    forall i, j | 0 <= i < j < |rs| :: rs[i] != rs[j]
  }

  /** `start_services`: spawn and record every task in input order. */
  method StartServices(tasks: seq<ProcessConfig>, spawned: seq<IoResult<Pid>>)
    returns (services: array<Record>, emitted: seq<Event>, commands: seq<Command>, panicked: bool)
    requires |spawned| == |tasks|
    ensures fresh(services) && Distinct(services[..])
    ensures forall k | 0 <= k < services.Length :: fresh(services[k])
    ensures Start(tasks, spawned) == Outcome(StatesOf(services[..]), emitted, commands, panicked)
  {
    var built: seq<Record> := [];
    emitted, commands, panicked := [], [], false;
    var i := 0;
    while i < |tasks|
      invariant 0 <= i <= |tasks|
      invariant Distinct(built) && forall r | r in built :: fresh(r)
      invariant Start(tasks[..i], spawned[..i]) == Outcome(StatesOf(built), emitted, commands, false)
    {
      StartStep(tasks, spawned, i);
      commands := commands + [NewProcess(tasks[i].path)];
      if spawned[i].Err? {
        panicked := true;
        StartPanicSticks(tasks, spawned, i + 1);
        break;
      }
      var service := new Record(tasks[i], spawned[i].value);
      emitted := emitted + [Event(Started, service.config.name, service.child)];
      built := built + [service];
      i := i + 1;
    }
    if !panicked {
      assert tasks[..i] == tasks && spawned[..i] == spawned;
    }
    services := new Record[|built|](k requires 0 <= k < |built| => built[k]);
    forall k | 0 <= k < services.Length
      ensures services[k] == built[k] && fresh(services[k])
    {
      assert built[k] in built;
    }
    assert services[..] == built;
  }

  /** One pass of `main`'s loop: poll every record in vector order. */
  method PollCycle(services: array<Record>, inputs: seq<PollInput>)
    returns (emitted: seq<Event>, commands: seq<Command>, panicked: bool)
    requires |inputs| == services.Length
    requires Distinct(services[..])
    modifies services[..]
    ensures Cycle(old(StatesOf(services[..])), inputs) == Outcome(StatesOf(services[..]), emitted, commands, panicked)
  {
    ghost var rs := StatesOf(services[..]);
    ghost var done: seq<RecordState> := [];
    emitted, commands, panicked := [], [], false;
    var i := 0;
    while i < services.Length
      invariant 0 <= i <= services.Length
      invariant Cycle(rs[..i], inputs[..i]) == Outcome(done, emitted, commands, false)
      invariant forall k | 0 <= k < i :: services[k].State() == done[k]
      invariant forall k | i <= k < services.Length :: services[k].State() == rs[k]
    {
      assert forall k | 0 <= k < services.Length && k != i :: services[k] != services[i] by {
        assert forall k | 0 <= k < services.Length :: services[..][k] == services[k];
      }
      var e, c, p := services[i].Poll(inputs[i]);
      CycleStepPolled(rs, inputs, done, emitted, commands, PollResult(services[i].State(), e, c, p));
      emitted, commands := emitted + e, commands + c;
      if p {
        panicked := true;
        CycleEndsAtPanic(services[..], rs, inputs, done, emitted, commands);
        return;
      }
      done := done + [services[i].State()];
      i := i + 1;
    }
    assert rs[..i] == rs && inputs[..i] == inputs;
    StatesOfPointwise(services[..], done);
  }

  /** `main`'s loop, bounded to the given rounds: one cycle per round. */
  method Supervise(services: array<Record>, rounds: seq<seq<PollInput>>)
    returns (emitted: seq<Event>, commands: seq<Command>, panicked: bool)
    requires Rectangular(rounds, services.Length)
    requires Distinct(services[..])
    modifies services[..]
    ensures Cycles(old(StatesOf(services[..])), rounds) == Outcome(StatesOf(services[..]), emitted, commands, panicked)
  {
    ghost var rs := StatesOf(services[..]);
    emitted, commands, panicked := [], [], false;
    var k := 0;
    assert rounds[..0] == [];
    while k < |rounds|
      invariant 0 <= k <= |rounds|
      invariant Cycles(rs, rounds[..k]) == Outcome(StatesOf(services[..]), emitted, commands, false)
    {
      CyclesStep(rs, rounds, k);
      var e, c, p := PollCycle(services, rounds[k]);
      emitted, commands := emitted + e, commands + c;
      if p {
        panicked := true;
        CyclesPanicSticks(rs, rounds, k + 1);
        return;
      }
      k := k + 1;
    }
    assert rounds[..k] == rounds;
  }
}
