/** Closing a stream: WriteEvent retries and closes the stream when it gives up, Close writes a close event through
    WriteEvent (snova/mux/mux_stream.h, snova/mux/mux_stream.cc). */
module StreamClose {
  type Id = nat

  const TRIES: nat := 3

  // ---- The object ----

  /** One turn of the loop in WriteEvent: no writer was set, or the event was handed to one and refused or accepted. */
  datatype Try = NoWriterSet | Refused(isClose: bool) | Accepted(isClose: bool)

  /** The turns of one call for one event: the first acceptance ends it, and otherwise it takes all three. */
  predicate Complete(ts: seq<Try>, isClose: bool) {
    && 1 <= |ts| <= 3
    && (forall i :: 0 <= i < |ts| ==> ts[i] == NoWriterSet || ts[i] == Refused(isClose) || ts[i] == Accepted(isClose))
    && (forall i :: 0 <= i < |ts| - 1 ==> !ts[i].Accepted?)
    && (|ts| < 3 ==> ts[|ts| - 1].Accepted?)
  }

  predicate Accepts(ts: seq<Try>) {
    ts != [] && ts[|ts| - 1].Accepted?
  }

  /** A stream object. If it is shared, other coroutines may close it whenever WriteEvent is suspended. */
  class MuxStream {
    const shared: bool
    var closed: bool
    /** Whether `event_writer_` is set. */
    var hasWriter: bool

    constructor (shared: bool)
      ensures !closed && this.shared == shared
    {
      this.shared := shared;
      closed := false;
      hasWriter := *;
    }

    /** What other coroutines do while this one is suspended. */
    method Suspend()
      modifies this`closed
      ensures old(closed) ==> closed
      ensures !shared ==> closed == old(closed)
    {
      if shared {
        var byOthers: bool := *;
        closed := closed || byOthers;
      }
    }

    /** `tries` are the turns for the event itself: it is offered until it is accepted, at most three times, and first to the
        writer at hand. Only if all three fail is the stream closed, and if nobody else has closed it, `closing` are the
        turns for a close event; so the call makes at most six attempts. */
    method WriteEvent(isClose: bool) returns (ok: bool, tries: seq<Try>, closing: seq<Try>)
      requires isClose ==> closed
      modifies this
      ensures Complete(tries, isClose) && (ok <==> Accepts(tries))
      ensures tries[0].NoWriterSet? <==> !old(hasWriter)
      ensures closing == [] || Complete(closing, true)
      ensures ok || old(closed) ==> closing == []
      ensures !ok ==> closed
      ensures !ok && !shared && !old(closed) ==> Complete(closing, true)
      ensures old(closed) ==> closed
      ensures ok && !shared ==> closed == old(closed)
      decreases !closed, 1
    {
      ok, tries, closing := false, [], [];
      while |tries| < 3
        invariant |tries| <= 3 && !ok
        invariant forall i :: 0 <= i < |tries| ==> tries[i] == NoWriterSet || tries[i] == Refused(isClose)
        invariant if tries == [] then hasWriter == old(hasWriter) else tries[0].NoWriterSet? <==> !old(hasWriter)
        invariant old(closed) ==> closed
        invariant !shared ==> closed == old(closed)
        decreases 3 - |tries|
      {
        if hasWriter {
          ok := *;
          Suspend();
          if ok {
            tries := tries + [Accepted(isClose)];
            return;
          }
          tries := tries + [Refused(isClose)];
        } else {
          tries := tries + [NoWriterSet];
        }
        hasWriter := *;  // event_writer_factory_()
      }
      var _, turns := Close(false);
      closing := turns;
    }

    /** An open stream that is closed locally tells the peer: its close event is offered like any other. A stream that is
        closed already, or is closed by the remote end, offers nothing. */
    method Close(byRemote: bool) returns (ok: bool, tries: seq<Try>)
      modifies this
      ensures closed
      ensures old(closed) || byRemote ==> ok && tries == []
      ensures !old(closed) && !byRemote ==>
                Complete(tries, true) && (ok <==> Accepts(tries)) && (tries[0].NoWriterSet? <==> !old(hasWriter))
      decreases !closed, 0
    {
      if closed {
        return true, [];
      }
      closed := true;
      if byRemote {
        return true, [];
      }
      var none;
      ok, tries, none := WriteEvent(true);
    }
  }

  // ---- All interleavings on one object ----

  /** A coroutine inside WriteEvent: whether it writes the close event, tries left in its loop, attempts made so far. */
  datatype Task = Task(isClose: bool, left: nat, attempts: nat)

  datatype State = State(closed: bool, byRemote: bool, tasks: map<Id, Task>, closesDelivered: nat)

  const INIT: State := State(false, false, map[], 0)

  datatype Step =
    | CallWrite(id: Id)
    | CallClose(id: Id, byRemote: bool)
    | Attempt(id: Id, ok: bool)
    | NoWriter(id: Id)
    | GiveUp(id: Id)

  predicate Enabled(s: State, t: Step) {
    match t
    case CallWrite(id) => id !in s.tasks
    case CallClose(id, _) => id !in s.tasks
    case Attempt(id, _) => id in s.tasks && s.tasks[id].left > 0
    case NoWriter(id) => id in s.tasks && s.tasks[id].left > 0
    case GiveUp(id) => id in s.tasks && s.tasks[id].left == 0
  }

  /** Close(false) by coroutine `id`, which has made `attempts` attempts. */
  function CloseLocally(s: State, id: Id, attempts: nat): State {
    if s.closed then s.(tasks := s.tasks - {id})
    else s.(closed := true, tasks := s.tasks[id := Task(true, TRIES, attempts)])
  }

  /** Close(true), which neither suspends nor writes. */
  function RemoteClose(s: State): State {
    if s.closed then s else s.(closed := true, byRemote := true)
  }

  function Apply(s: State, t: Step): State {
    if !Enabled(s, t) then s
    else
      match t
      case CallWrite(id) => s.(tasks := s.tasks[id := Task(false, TRIES, 0)])
      case CallClose(id, byRemote) => if byRemote then RemoteClose(s) else CloseLocally(s, id, 0)
      case Attempt(id, ok) =>
        var k := s.tasks[id];
        if ok then s.(tasks := s.tasks - {id}, closesDelivered := s.closesDelivered + if k.isClose then 1 else 0)
        else s.(tasks := s.tasks[id := Task(k.isClose, k.left - 1, k.attempts + 1)])
      case NoWriter(id) =>
        s.(tasks := s.tasks[id := s.tasks[id].(left := s.tasks[id].left - 1)])
      case GiveUp(id) => CloseLocally(s, id, s.tasks[id].attempts)
  }

  function Run(schedule: seq<Step>): State {
    if schedule == [] then INIT
    else var n := |schedule| - 1; Apply(Run(schedule[..n]), schedule[n])
  }

  function Closers(s: State): set<Id> {
    set id | id in s.tasks && s.tasks[id].isClose
  }

  predicate TaskOk(k: Task) {
    k.attempts + k.left <= if k.isClose then 2 * TRIES else TRIES
  }

  predicate Inv(s: State) {
    && (forall id <- s.tasks :: TaskOk(s.tasks[id]))
    && s.closesDelivered + |Closers(s)| <= (if s.closed && !s.byRemote then 1 else 0)
    && (s.byRemote ==> s.closed)
  }

  lemma StepKeepsInv(s: State, t: Step)
    requires Inv(s)
    ensures Inv(Apply(s, t))
  {
    hide TaskOk;
    if Enabled(s, t) {
      var s' := Apply(s, t);
      match t
      case CallWrite(id) =>
        TaskSteps(s.tasks[id := Task(false, TRIES, 0)][id], false);
        assert Closers(s') == Closers(s);
      case CallClose(id, byRemote) => if byRemote { RemoteCloseKeepsInv(s); } else { CloseKeepsInv(s, id, 0); }
      case Attempt(id, ok) => AttemptKeepsInv(s, id, ok);
      case NoWriter(id) =>
        TaskSteps(s.tasks[id], true);
        assert Closers(s') == Closers(s);
      case GiveUp(id) => CloseKeepsInv(s, id, s.tasks[id].attempts);
    }
  }

  /** What a turn of the loop leaves of a coroutine's budget. */
  lemma TaskSteps(k: Task, turn: bool)
    requires if turn then TaskOk(k) && k.left > 0 else k == Task(false, TRIES, 0)
    ensures TaskOk(k)
    ensures turn ==> TaskOk(k.(left := k.left - 1)) && TaskOk(Task(k.isClose, k.left - 1, k.attempts + 1))
  {
  }

  lemma AttemptKeepsInv(s: State, id: Id, ok: bool)
    requires Inv(s) && Enabled(s, Attempt(id, ok))
    ensures Inv(Apply(s, Attempt(id, ok)))
  {
    hide TaskOk;
    TaskSteps(s.tasks[id], true);
    var s' := Apply(s, Attempt(id, ok));
    if s.tasks[id].isClose && ok {
      assert Closers(s') == Closers(s) - {id} && id in Closers(s);
    } else {
      assert Closers(s') == Closers(s);
    }
  }

  lemma CloseKeepsInv(s: State, id: Id, attempts: nat)
    requires Inv(s) && attempts == (if id in s.tasks then s.tasks[id].attempts else 0)
    ensures Inv(CloseLocally(s, id, attempts))
  {
    var s' := CloseLocally(s, id, attempts);
    NewCloser(s, s', id);
    if !s.closed {
      assert Closers(s) == {} && id !in Closers(s);
      assert attempts <= TRIES;
      assert TaskOk(s'.tasks[id]);
    }
  }

  /** Only the coroutine that finds the stream open becomes the one that writes the close event. */
  lemma NewCloser(s: State, s': State, id: Id)
    requires Inv(s)
    requires s' == CloseLocally(s, id, if id in s.tasks then s.tasks[id].attempts else 0) ||
             (s' == s.(closed := true, byRemote := true) && !s.closed)
    ensures |Closers(s')| <= |Closers(s)| + if s'.closed && !s.closed && !s'.byRemote then 1 else 0
    ensures !s.closed ==> |Closers(s)| == 0 && s.closesDelivered == 0
  {
    if !s.closed && !s'.byRemote {
      assert Closers(s) == {};
      assert Closers(s') == {id};
    } else if s'.tasks == s.tasks {
      assert Closers(s') == Closers(s);
    } else {
      assert Closers(s') == Closers(s) - {id};
    }
  }

  lemma RemoteCloseKeepsInv(s: State)
    requires Inv(s)
    ensures Inv(RemoteClose(s)) && RemoteClose(s).closesDelivered == s.closesDelivered
  {
    assert Closers(RemoteClose(s)) == Closers(s);
  }

  lemma {:induction false} EveryRunKeepsInv(schedule: seq<Step>)
    ensures Inv(Run(schedule))
  {
    if schedule == [] {
      InitIsInv();
    } else {
      var n := |schedule| - 1;
      EveryRunKeepsInv(schedule[..n]);
      StepKeepsInv(Run(schedule[..n]), schedule[n]);
    }
  }

  lemma InitIsInv()
    ensures Inv(INIT)
  {
    assert Closers(INIT) == {};
  }

  /** Over its whole life, whoever writes and closes it concurrently, a stream object delivers at most one close event,
      none if the remote end closed it, and no coroutine makes more than six attempts. */
  lemma AtMostOneClose(schedule: seq<Step>)
    ensures var s := Run(schedule);
            && s.closesDelivered <= 1
            && (s.byRemote ==> s.closesDelivered == 0 && forall id <- s.tasks :: !s.tasks[id].isClose)
            && (forall id <- s.tasks :: s.tasks[id].attempts <= 2 * TRIES)
  {
    EveryRunKeepsInv(schedule);
    var s := Run(schedule);
    if s.byRemote {
      assert |Closers(s)| == 0;
      assert forall id <- s.tasks :: s.tasks[id].isClose ==> id in Closers(s);
    }
  }

  /** Once closed, a stream stays closed, and who closed it stays settled. */
  lemma ClosedForGood(s: State, t: Step)
    requires Inv(s) && s.closed
    ensures Apply(s, t).closed && Apply(s, t).byRemote == s.byRemote
  {
  }

  // ---- The calls of the object as runs ----

  function RunFrom(s: State, steps: seq<Step>): State
    decreases |steps|
  {
    if steps == [] then s else RunFrom(Apply(s, steps[0]), steps[1..])
  }

  /** The step a turn of the loop is. */
  function StepOf(id: Id, t: Try): Step {
    match t
    case NoWriterSet => NoWriter(id)
    case Refused(_) => Attempt(id, false)
    case Accepted(_) => Attempt(id, true)
  }

  function StepsOf(id: Id, ts: seq<Try>): (steps: seq<Step>)
    ensures |steps| == |ts| && forall i :: 0 <= i < |ts| ==> steps[i] == StepOf(id, ts[i])
  {
    if ts == [] then [] else [StepOf(id, ts[0])] + StepsOf(id, ts[1..])
  }

  lemma {:induction false} RunFromTwice(s: State, a: seq<Step>, b: seq<Step>)
    ensures RunFrom(s, a + b) == RunFrom(RunFrom(s, a), b)
    decreases |a|
  {
    hide Apply;
    if a == [] {
      assert a + b == b;
    } else {
      assert (a + b)[0] == a[0] && (a + b)[1..] == a[1..] + b;
      RunFromTwice(Apply(s, a[0]), a[1..], b);
    }
  }

  /** `n` turns of a coroutine: turns that fail use up its tries, and an acceptance ends it and delivers its event. */
  predicate Turned(s: State, s': State, id: Id, n: nat, accepted: bool)
    requires id in s.tasks
  {
    var k := s.tasks[id];
    && s'.closed == s.closed && s'.byRemote == s.byRemote
    && s'.closesDelivered == s.closesDelivered + (if accepted && k.isClose then 1 else 0)
    && s'.tasks - {id} == s.tasks - {id}
    && (accepted ==> id !in s'.tasks)
    && (!accepted ==> id in s'.tasks && s'.tasks[id].isClose == k.isClose && s'.tasks[id].left == k.left - n)
  }

  lemma OneTurn(s: State, id: Id, t: Try)
    requires id in s.tasks && s.tasks[id].left > 0
    ensures Turned(s, Apply(s, StepOf(id, t)), id, 1, t.Accepted?)
  {
    assert Apply(s, StepOf(id, t)).tasks - {id} == s.tasks - {id};
  }

  lemma TurnAgain(s: State, s1: State, s': State, id: Id, n: nat, accepted: bool)
    requires id in s.tasks && Turned(s, s1, id, 1, false) && Turned(s1, s', id, n, accepted)
    ensures Turned(s, s', id, n + 1, accepted)
  {
  }

  lemma {:induction false} TurnsAreARun(s: State, id: Id, ts: seq<Try>)
    requires id in s.tasks && |ts| <= s.tasks[id].left
    requires forall i :: 0 <= i < |ts| - 1 ==> !ts[i].Accepted?
    ensures Turned(s, RunFrom(s, StepsOf(id, ts)), id, |ts|, Accepts(ts))
    decreases |ts|
  {
    hide Apply;
    if ts != [] {
      var s1 := Apply(s, StepOf(id, ts[0]));
      var rest := ts[1..];
      OneTurn(s, id, ts[0]);
      assert StepsOf(id, ts)[1..] == StepsOf(id, rest);
      if |ts| == 1 {
        assert RunFrom(s, StepsOf(id, ts)) == s1;
      } else {
        assert !ts[0].Accepted?;
        TurnsAreARun(s1, id, rest);
        TurnAgain(s, s1, RunFrom(s, StepsOf(id, ts)), id, |rest|, Accepts(ts));
      }
    }
  }

  /** The end of a call: nothing after an acceptance, else the step that gives up. */
  function Ending(id: Id, ts: seq<Try>): seq<Step> {
    if Accepts(ts) then [] else [GiveUp(id)]
  }

  lemma OneStep(s: State, t: Step)
    ensures RunFrom(s, [t]) == Apply(s, t) && RunFrom(s, []) == s
  {
    hide Apply;
    assert [t][1..] == [];
    assert RunFrom(Apply(s, t), []) == Apply(s, t);
  }

  /** What Close does to an open stream is a run of the machine: the stream is closed, the coroutine is done, and a close
      event was delivered exactly if a turn was accepted. */
  lemma CloseIsARun(s: State, id: Id, ts: seq<Try>)
    requires !s.closed && id !in s.tasks && Complete(ts, true)
    ensures var s' := RunFrom(s, [CallClose(id, false)] + (StepsOf(id, ts) + Ending(id, ts)));
            s' == s.(closed := true, closesDelivered := s.closesDelivered + if Accepts(ts) then 1 else 0)
  {
    hide RunFrom, StepsOf;
    var s1 := Apply(s, CallClose(id, false));
    OneStep(s, CallClose(id, false));
    RunFromTwice(s, [CallClose(id, false)], StepsOf(id, ts) + Ending(id, ts));
    assert s1.tasks - {id} == s.tasks;
    TurnsEnd(s1, id, ts);
  }

  /** Three turns at most, and the coroutine of a closed stream is done. */
  lemma TurnsEnd(s: State, id: Id, ts: seq<Try>)
    requires s.closed && id in s.tasks && s.tasks[id].left == 3 && Complete(ts, s.tasks[id].isClose)
    ensures var s' := RunFrom(s, StepsOf(id, ts) + Ending(id, ts));
            s' == s.(tasks := s.tasks - {id},
                     closesDelivered := s.closesDelivered + if Accepts(ts) && s.tasks[id].isClose then 1 else 0)
  {
    hide RunFrom, StepsOf;
    TurnsAreARun(s, id, ts);
    RunFromTwice(s, StepsOf(id, ts), Ending(id, ts));
    OneStep(RunFrom(s, StepsOf(id, ts)), GiveUp(id));
  }

  /** What WriteEvent does to an open stream that nobody else uses: an accepted event leaves it open; three failed turns
      close it, and then it makes its turns for the close event. */
  lemma WriteIsARun(s: State, id: Id, ts: seq<Try>, closing: seq<Try>)
    requires !s.closed && id !in s.tasks && Complete(ts, false)
    requires if Accepts(ts) then closing == [] else Complete(closing, true)
    ensures var first := RunFrom(s, [CallWrite(id)] + StepsOf(id, ts));
            if Accepts(ts) then first == s
            else RunFrom(first, [GiveUp(id)] + (StepsOf(id, closing) + Ending(id, closing))) ==
                 s.(closed := true, closesDelivered := s.closesDelivered + if Accepts(closing) then 1 else 0)
  {
    hide RunFrom, StepsOf;
    var s1 := Apply(s, CallWrite(id));
    OneStep(s, CallWrite(id));
    RunFromTwice(s, [CallWrite(id)], StepsOf(id, ts));
    TurnsAreARun(s1, id, ts);
    assert s1.tasks - {id} == s.tasks;
    if !Accepts(ts) {
      var first := RunFrom(s1, StepsOf(id, ts));
      var s2 := Apply(first, GiveUp(id));
      OneStep(first, GiveUp(id));
      RunFromTwice(first, [GiveUp(id)], StepsOf(id, closing) + Ending(id, closing));
      assert s2.tasks - {id} == first.tasks - {id};
      TurnsEnd(s2, id, closing);
    }
  }
}
