/** The four lifecycle events the supervisor reports, their fixed texts, and
    predicates over an ordered event log. */
module Events {
  import opened Config

  /** Kinds of event (`MajorEvents`). */
  datatype MajorEvent = Started | ErrStopped | OkStopped | Restarted

  /** One reported event: its kind, the task's name and the pid of the record's
      child at the moment of reporting. The timestamp is not modelled. */
  datatype Event = Event(kind: MajorEvent, name: string, pid: Pid)

  predicate IsStop(k: MajorEvent)
  {
    k == OkStopped || k == ErrStopped
  }

  /** The description printed for each kind. */
  function Description(k: MajorEvent): string
  {
    match k
    case OkStopped => "Process stopped with no errors"
    case ErrStopped => "Process stopped with errors"
    case Started => "Process started"
    case Restarted => "Process restarted"
  }

  /** The event-type word printed for each kind. */
  function EventType(k: MajorEvent): string
  {
    match k
    case OkStopped => "Stopped-Ok"
    case ErrStopped => "Stopped-Err"
    case Started => "Started"
    case Restarted => "Restarted"
  }

  /** Both tables tell the four kinds apart: a printed type word or
      description identifies the kind of the event. */
  lemma TablesIdentifyKind(a: MajorEvent, b: MajorEvent)
    ensures EventType(a) == EventType(b) <==> a == b
    ensures Description(a) == Description(b) <==> a == b
  {
  }

  /** Number of events of kind `k` in `log`. */
  function Count(log: seq<Event>, k: MajorEvent): nat
  {
    if log == [] then 0
    else (if log[0].kind == k then 1 else 0) + Count(log[1..], k)
  }

  function CountStops(log: seq<Event>): nat
  {
    Count(log, OkStopped) + Count(log, ErrStopped)
  }

  lemma {:induction false} CountAppend(a: seq<Event>, b: seq<Event>, k: MajorEvent)
    ensures Count(a + b, k) == Count(a, k) + Count(b, k)
  {
    if a != [] {
      assert (a + b)[1..] == a[1..] + b;
      CountAppend(a[1..], b, k);
    } else {
      assert a + b == b;
    }
  }

  /** A stop followed by its `Restarted` counts once as a stop and once as a
      restart. */
  lemma CountStopThenRestart(stopped: Event, restarted: Event)
    requires IsStop(stopped.kind) && restarted.kind == Restarted
    ensures CountStops([stopped, restarted]) == 1 && Count([stopped, restarted], Restarted) == 1
  {
    var log := [stopped, restarted];
    assert log[1..] == [restarted] && log[1..][1..] == [];
    assert Count([restarted], OkStopped) == 0 && Count([restarted], ErrStopped) == 0;
    assert Count([restarted], Restarted) == 1;
  }

  /** Every `Restarted` event directly follows a stop event of the same task. */
  predicate RestartsFollowStops(log: seq<Event>)
  {
    forall i | 0 <= i < |log| && log[i].kind == Restarted ::
      0 < i && IsStop(log[i - 1].kind) && log[i - 1].name == log[i].name
  }

  /** Every `Restarted` event directly follows an event of kind `stop`. */
  predicate RestartsFollowOnly(log: seq<Event>, stop: MajorEvent)
  {
    forall i | 0 <= i < |log| && log[i].kind == Restarted :: 0 < i && log[i - 1].kind == stop
  }

  /** Every event of kind `stop` is directly followed by a `Restarted` event. */
  predicate RestartedAfter(log: seq<Event>, stop: MajorEvent)
  {
    forall i | 0 <= i < |log| && log[i].kind == stop :: i + 1 < |log| && log[i + 1].kind == Restarted
  }

  lemma RestartsFollowStopsAppend(a: seq<Event>, b: seq<Event>)
    requires RestartsFollowStops(a) && RestartsFollowStops(b)
    ensures RestartsFollowStops(a + b)
  {
    forall i | 0 <= i < |a + b| && (a + b)[i].kind == Restarted
      ensures 0 < i && IsStop((a + b)[i - 1].kind) && (a + b)[i - 1].name == (a + b)[i].name
    {
      if i < |a| {
        assert a[i].kind == Restarted;
      } else {
        assert b[i - |a|].kind == Restarted;
      }
    }
  }

  lemma RestartsFollowOnlyAppend(a: seq<Event>, b: seq<Event>, stop: MajorEvent)
    requires RestartsFollowOnly(a, stop) && RestartsFollowOnly(b, stop)
    ensures RestartsFollowOnly(a + b, stop)
  {
    forall i | 0 <= i < |a + b| && (a + b)[i].kind == Restarted
      ensures 0 < i && (a + b)[i - 1].kind == stop
    {
      if i < |a| {
        assert a[i].kind == Restarted;
      } else {
        assert b[i - |a|].kind == Restarted;
      }
    }
  }

  lemma RestartedAfterAppend(a: seq<Event>, b: seq<Event>, stop: MajorEvent)
    requires RestartedAfter(a, stop) && RestartedAfter(b, stop)
    ensures RestartedAfter(a + b, stop)
  {
    forall i | 0 <= i < |a + b| && (a + b)[i].kind == stop
      ensures i + 1 < |a + b| && (a + b)[i + 1].kind == Restarted
    {
      if i < |a| {
        assert a[i].kind == stop;
      } else {
        assert b[i - |a|].kind == stop;
      }
    }
  }
}
