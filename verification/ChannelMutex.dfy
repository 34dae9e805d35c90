/** The coroutine mutex built from a flag, a waiter count and a channel of capacity one
    (snova/util/async_channel_mutex.cc), as steps between suspension points. */
module ChannelMutex {
  type Id = nat

  /** The asio channel and the coroutines using it. A coroutine is in at most one place: parked in a receive, woken by
      a token and not yet resumed, woken by a cancellation, past Lock and before Unlock, parked in the send of Unlock,
      or past that send and not yet resumed. */
  datatype World = World(
    open: bool, tokens: nat, receivers: seq<Id>, senders: seq<Id>,
    woken: set<Id>, cancelled: set<Id>, inside: set<Id>, sendDone: set<Id>)

  datatype State = State(locked: bool, waitCount: int, world: World)

  const INIT: State := State(false, 0, World(true, 0, [], [], {}, {}, {}, {}))

  // ---- The channel ----

  /** `async_receive`: a buffered token at once (a parked sender then refills the buffer), an error on a closed empty
      channel, else park. */
  function Receive(w: World, id: Id): World {
    if w.tokens > 0 then
      if w.senders != [] then
        w.(senders := w.senders[1..], sendDone := w.sendDone + {w.senders[0]}, woken := w.woken + {id})
      else
        w.(tokens := w.tokens - 1, woken := w.woken + {id})
    else if !w.open then w.(cancelled := w.cancelled + {id})
    else w.(receivers := w.receivers + [id])
  }

  /** `async_send`: to the first parked receiver, else into the buffer, else park. */
  function Send(w: World, id: Id): World {
    if w.receivers != [] then
      w.(receivers := w.receivers[1..], woken := w.woken + {w.receivers[0]}, sendDone := w.sendDone + {id})
    else if w.tokens < 1 then w.(tokens := w.tokens + 1, sendDone := w.sendDone + {id})
    else w.(senders := w.senders + [id])
  }

  function Members(q: seq<Id>): set<Id> {
    set id | id in q
  }

  /** `cancel` and `close`. */
  function Shut(w: World): World {
    w.(open := false,
       receivers := [], cancelled := w.cancelled + Members(w.receivers),
       senders := [], sendDone := w.sendDone + Members(w.senders))
  }

  // ---- The mutex ----

  /** From the test of the while loop in Lock to the next suspension or the return. */
  function LockLoop(s: State, id: Id): State {
    if s.locked then State(true, s.waitCount + 1, Receive(s.world, id))
    else State(true, s.waitCount, s.world.(inside := s.world.inside + {id}))
  }

  function Leave(s: State, id: Id): State {
    var w := s.world.(inside := s.world.inside - {id});
    if !w.open then s.(world := w)
    else State(false, s.waitCount, if s.waitCount > 0 then Send(w, id) else w)
  }

  datatype Step =
    | LockEnter(id: Id)        // a coroutine calls Lock
    | LockResume(id: Id)       // a woken waiter resumes
    | LockCancelled(id: Id)    // a waiter resumes with an error; Write goes on regardless
    | UnlockEnter(id: Id)      // the holder calls Unlock
    | UnlockResume(id: Id)     // the send of Unlock has completed
    | Close

  predicate Outside(w: World, id: Id) {
    && id !in w.receivers && id !in w.senders
    && id !in w.woken && id !in w.cancelled && id !in w.inside && id !in w.sendDone
  }

  predicate Enabled(s: State, t: Step) {
    match t
    case LockEnter(id) => Outside(s.world, id)
    case LockResume(id) => id in s.world.woken
    case LockCancelled(id) => id in s.world.cancelled
    case UnlockEnter(id) => id in s.world.inside
    case UnlockResume(id) => id in s.world.sendDone
    case Close => true
  }

  function Apply(s: State, t: Step): State {
    match t
    case LockEnter(id) =>
      if s.world.open then LockLoop(s, id) else s.(world := s.world.(inside := s.world.inside + {id}))
    case LockResume(id) =>
      LockLoop(State(s.locked, s.waitCount - 1, s.world.(woken := s.world.woken - {id})), id)
    case LockCancelled(id) =>
      State(s.locked, s.waitCount - 1,
            s.world.(cancelled := s.world.cancelled - {id}, inside := s.world.inside + {id}))
    case UnlockEnter(id) => Leave(s, id)
    case UnlockResume(id) => s.(world := s.world.(sendDone := s.world.sendDone - {id}))
    case Close => s.(world := Shut(s.world))
  }

  /** A schedule is any sequence of steps each enabled where it is taken. */
  predicate Feasible(schedule: seq<Step>) {
    schedule == [] ||
    (var n := |schedule| - 1; Feasible(schedule[..n]) && Enabled(Run(schedule[..n]), schedule[n]))
  }

  function Run(schedule: seq<Step>): State {
    if schedule == [] then INIT
    else var n := |schedule| - 1; Apply(Run(schedule[..n]), schedule[n])
  }

  // ---- What every step keeps ----

  predicate NoDup(q: seq<Id>) {
    forall i, j :: 0 <= i < j < |q| ==> q[i] != q[j]
  }

  predicate OnePlace(w: World) {
    && NoDup(w.receivers) && NoDup(w.senders)
    && (forall id <- w.receivers ::
          id !in w.senders && id !in w.woken && id !in w.cancelled && id !in w.inside && id !in w.sendDone)
    && (forall id <- w.senders :: id !in w.woken && id !in w.cancelled && id !in w.inside && id !in w.sendDone)
    && w.woken !! w.cancelled && w.inside !! (w.woken + w.cancelled)
    && w.sendDone !! (w.woken + w.cancelled + w.inside)
  }

  predicate ChannelOk(w: World) {
    && w.tokens <= 1
    && (w.receivers != [] ==> w.tokens == 0 && w.open)
    && (w.senders != [] ==> w.tokens == 1 && w.open)
    && (w.open ==> w.cancelled == {})
  }

  predicate Inv(s: State) {
    && OnePlace(s.world)
    && ChannelOk(s.world)
    && s.waitCount == |s.world.receivers| + |s.world.woken| + |s.world.cancelled|
    && (s.world.open ==> |s.world.inside| == if s.locked then 1 else 0)
    && (s.world.open && !s.locked && s.world.receivers != [] ==> s.world.woken != {})
  }

  lemma ReceiveKeepsPlaces(w: World, id: Id)
    requires OnePlace(w) && ChannelOk(w) && Outside(w, id)
    ensures OnePlace(Receive(w, id)) && ChannelOk(Receive(w, id))
    ensures var w' := Receive(w, id);
            |w'.receivers| + |w'.woken| + |w'.cancelled| == |w.receivers| + |w.woken| + |w.cancelled| + 1
    ensures Receive(w, id).inside == w.inside && Receive(w, id).open == w.open
  {
    if w.tokens > 0 && w.senders != [] {
      SenderCompletes(w, id);
    }
  }

  /** The first parked sender gets its place in the buffer. */
  lemma SenderCompletes(w: World, id: Id)
    requires OnePlace(w) && w.senders != [] && Outside(w, id)
    ensures var w1 := w.(senders := w.senders[1..], sendDone := w.sendDone + {w.senders[0]});
            OnePlace(w1) && Outside(w1, id)
  {
    var first := w.senders[0];
    assert w.senders == [first] + w.senders[1..];
    assert first in w.senders && first !in w.senders[1..];
  }

  lemma SendKeepsPlaces(w: World, id: Id)
    requires OnePlace(w) && ChannelOk(w) && Outside(w, id) && w.open
    ensures OnePlace(Send(w, id)) && ChannelOk(Send(w, id))
    ensures var w' := Send(w, id);
            |w'.receivers| + |w'.woken| + |w'.cancelled| == |w.receivers| + |w.woken| + |w.cancelled|
    ensures Send(w, id).inside == w.inside && Send(w, id).open == w.open
    ensures w.receivers != [] ==> Send(w, id).woken != {}
    ensures w.receivers == [] ==> Send(w, id).woken == w.woken && Send(w, id).receivers == []
  {
    var w' := Send(w, id);
    if w.receivers != [] {
      assert w.receivers[0] in w.receivers && w.receivers[0] in w'.woken;
      assert forall x <- w'.receivers :: x in w.receivers && x != w.receivers[0];
    }
  }

  lemma ShutKeepsPlaces(w: World)
    requires OnePlace(w) && ChannelOk(w)
    ensures OnePlace(Shut(w)) && ChannelOk(Shut(w))
    ensures |Shut(w).cancelled| == |w.receivers| + |w.cancelled|
  {
    NoDupSize(w.receivers);
    assert Members(w.receivers) !! w.cancelled;
  }

  lemma {:induction false} NoDupSize(q: seq<Id>)
    requires NoDup(q)
    ensures |Members(q)| == |q|
  {
    if q != [] {
      NoDupSize(q[1..]);
      assert Members(q) == {q[0]} + Members(q[1..]);
      assert q[0] !in Members(q[1..]);
    }
  }

  lemma OnlyMember(ids: set<Id>, id: Id)
    requires id in ids && |ids| <= 1
    ensures ids == {id}
  {
    assert ids == {id} + (ids - {id});
    assert |ids - {id}| == 0;
  }

  lemma LockLoopKeepsInv(s: State, id: Id)
    requires Inv(s) && Outside(s.world, id) && s.world.open
    ensures Inv(LockLoop(s, id))
  {
    if s.locked {
      ReceiveKeepsPlaces(s.world, id);
    } else {
      assert s.world.inside == {};
    }
  }

  /** A waiter leaves the count when it resumes; the rest of the state is that of a mutex it never waited for. */
  lemma LockResumeKeepsInv(s: State, id: Id)
    requires Inv(s) && id in s.world.woken
    ensures Inv(Apply(s, LockResume(id)))
  {
    var w := s.world.(woken := s.world.woken - {id});
    assert OnePlace(w) && Outside(w, id);
    if s.locked {
      ReceiveKeepsPlaces(w, id);
    } else if s.world.open {
      assert s.world.inside == {};
    }
  }

  lemma LeaveKeepsInv(s: State, id: Id)
    requires Inv(s) && id in s.world.inside
    ensures Inv(Leave(s, id))
    ensures s.world.open ==>
              && s.world.inside == {id} && Leave(s, id).world.inside == {} && !Leave(s, id).locked
              && (s.waitCount > 0 ==> Leave(s, id).world.woken != {})
  {
    var w := s.world.(inside := s.world.inside - {id});
    assert OnePlace(w) && Outside(w, id);
    if s.world.open {
      OnlyMember(s.world.inside, id);
      if s.waitCount > 0 {
        SendKeepsPlaces(w, id);
      }
    }
  }

  lemma StepKeepsInv(s: State, t: Step)
    requires Inv(s) && Enabled(s, t)
    ensures Inv(Apply(s, t))
  {
    match t
    case LockEnter(id) => if s.world.open { LockLoopKeepsInv(s, id); }
    case LockResume(id) => LockResumeKeepsInv(s, id);
    case LockCancelled(id) =>
    case UnlockEnter(id) => LeaveKeepsInv(s, id);
    case UnlockResume(id) =>
    case Close => ShutKeepsPlaces(s.world);
  }

  /** The invariant holds in every state that any interleaving reaches. */
  lemma {:induction false} EveryRunKeepsInv(schedule: seq<Step>)
    requires Feasible(schedule)
    ensures Inv(Run(schedule))
  {
    if schedule != [] {
      var n := |schedule| - 1;
      EveryRunKeepsInv(schedule[..n]);
      StepKeepsInv(Run(schedule[..n]), schedule[n]);
    }
  }

  // ---- The promises ----

  /** Until Close, at most one coroutine is between Lock and Unlock, and the flag says whether there is one. */
  lemma MutualExclusionUntilClose(schedule: seq<Step>, a: Id, b: Id)
    requires Feasible(schedule) && Run(schedule).world.open
    requires a in Run(schedule).world.inside && b in Run(schedule).world.inside
    ensures a == b && Run(schedule).locked
  {
    EveryRunKeepsInv(schedule);
    OnlyMember(Run(schedule).world.inside, a);
  }

  /** Lock excludes exactly as long as the channel is open: afterwards it lets everybody in at once. */
  lemma LockExcludesExactlyWhileOpen(schedule: seq<Step>, id: Id)
    requires Feasible(schedule) && Outside(Run(schedule).world, id)
    ensures var s := Run(schedule); var s' := Apply(s, LockEnter(id));
            && (s.world.open ==> (id in s'.world.inside <==> s.world.inside == {}))
            && (!s.world.open ==> id in s'.world.inside)
  {
    EveryRunKeepsInv(schedule);
    var s := Run(schedule);
    if s.world.open && s.locked {
      assert s.world.inside != {};
      ReceiveKeepsPlaces(s.world, id);
    }
  }

  /** A concrete run in which two coroutines are inside after Close. */
  lemma TwoInsideAfterClose()
    ensures var run := [LockEnter(1), Close, LockEnter(2)];
            Feasible(run) && Run(run).world.inside == {1, 2}
  {
    var run := [LockEnter(1), Close, LockEnter(2)];
    ThreeSteps([], LockEnter(1), Close, LockEnter(2), Apply(Apply(Apply(INIT, LockEnter(1)), Close), LockEnter(2)));
    assert [] + run == run;
  }

  /** The waiter count is exact, and a free mutex with a parked waiter has a woken one who will take it. */
  lemma NoLostWakeup(schedule: seq<Step>)
    requires Feasible(schedule) && Run(schedule).world.open
    ensures var s := Run(schedule);
            && s.waitCount == |s.world.receivers| + |s.world.woken|
            && (!s.locked && s.world.receivers != [] ==> s.world.woken != {})
            && (!s.locked ==> forall w <- s.world.woken :: Apply(s, LockResume(w)).world.inside == {w})
  {
    EveryRunKeepsInv(schedule);
    assert Run(schedule).world.cancelled == {};
  }

  /** Whoever waits, at most two further steps put a waiter inside: the holder leaves, a woken waiter resumes. */
  lemma WaitersAreServed(schedule: seq<Step>) returns (more: seq<Step>, id: Id)
    requires Feasible(schedule) && Run(schedule).world.open && Run(schedule).waitCount > 0
    ensures |more| <= 2 && Feasible(schedule + more)
    ensures id in Run(schedule).world.woken || id in Run(schedule).world.receivers
    ensures Run(schedule + more).world.inside == {id}
  {
    hide OnePlace, ChannelOk;
    var s := Run(schedule);
    EveryRunKeepsInv(schedule);
    if s.locked {
      var h :| h in s.world.inside;
      LeaveKeepsInv(s, h);
      id := Waiter(Leave(s, h));
      more := [UnlockEnter(h)] + [LockResume(id)];
      RunAppend(schedule, UnlockEnter(h));
      RunAppend(schedule + [UnlockEnter(h)], LockResume(id));
      assert schedule + [UnlockEnter(h)] + [LockResume(id)] == schedule + more;
    } else {
      id := Waiter(s);
      more := [LockResume(id)];
      RunAppend(schedule, LockResume(id));
    }
  }

  /** A woken waiter of a free mutex gets in when it resumes. */
  lemma Waiter(s: State) returns (id: Id)
    requires Inv(s) && s.world.open && !s.locked && s.waitCount > 0
    ensures id in s.world.woken && Apply(s, LockResume(id)).world.inside == {id}
  {
    assert s.world.woken != {} && s.world.inside == {};
    id :| id in s.world.woken;
  }

  /** Parked waiters are served in the order in which they parked: while the channel is open, no step moves one back, and
      each Unlock wakes the first of them and moves the others up by one. */
  lemma WaitersMoveUp(schedule: seq<Step>, t: Step, k: nat)
    requires Feasible(schedule) && Enabled(Run(schedule), t) && !t.Close?
    requires Run(schedule).world.open && k < |Run(schedule).world.receivers|
    ensures var s := Run(schedule); var q := s.world.receivers; var w' := Apply(s, t).world;
            if t.UnlockEnter? then
              && q[0] in w'.woken && (k > 0 ==> k - 1 < |w'.receivers| && w'.receivers[k - 1] == q[k])
            else k < |w'.receivers| && w'.receivers[k] == q[k]
  {
    hide Run;
    EveryRunKeepsInv(schedule);
  }

  lemma RunAppend(schedule: seq<Step>, t: Step)
    ensures Run(schedule + [t]) == Apply(Run(schedule), t)
    ensures Feasible(schedule + [t]) <==> Feasible(schedule) && Enabled(Run(schedule), t)
  {
    assert (schedule + [t])[..|schedule|] == schedule;
  }

  // ---- Coroutines that stay in Unlock ----

  /** While the channel is open, Unlock suspends exactly if somebody counts as waiting, nobody is parked in a receive, and
      a token is still in the buffer: all waiters have been woken and a token is left over. */
  lemma UnlockParksExactlyWhen(schedule: seq<Step>, id: Id)
    requires Feasible(schedule) && Run(schedule).world.open && id in Run(schedule).world.inside
    ensures var s := Run(schedule);
            id in Apply(s, UnlockEnter(id)).world.senders <==>
            s.waitCount > 0 && s.world.receivers == [] && s.world.tokens == 1
  {
    hide Run;
    EveryRunKeepsInv(schedule);
  }

  /** The step lets a parked sender go: Close, or a Lock that finds the mutex taken when the sender is first in line. */
  predicate Releases(s: State, t: Step, id: Id) {
    t.Close? || ((t.LockEnter? || t.LockResume?) && s.locked && s.world.senders != [] && s.world.senders[0] == id)
  }

  /** A coroutine parked in the send of Unlock goes on exactly at such a step, even if nobody holds or wants the mutex. */
  lemma SenderReleasedExactlyWhen(schedule: seq<Step>, t: Step, id: Id)
    requires Feasible(schedule) && Enabled(Run(schedule), t)
    requires Run(schedule).world.open && id in Run(schedule).world.senders
    ensures var s := Run(schedule); id !in Apply(s, t).world.senders <==> Releases(s, t, id)
  {
    hide Run;
    EveryRunKeepsInv(schedule);
    SenderStep(Run(schedule), t, id);
  }

  lemma SenderStep(s: State, t: Step, id: Id)
    requires Inv(s) && Enabled(s, t) && s.world.open && id in s.world.senders
    ensures id !in Apply(s, t).world.senders <==> Releases(s, t, id)
  {
    var q := s.world.senders;
    assert q == [q[0]] + q[1..];
  }

  /** None of the steps that follow the schedule releases the coroutine. */
  predicate NeverReleased(schedule: seq<Step>, more: seq<Step>, id: Id) {
    forall k :: 0 <= k < |more| ==> !Releases(Run(schedule + more[..k]), more[k], id)
  }

  /** Through every run without such a step the coroutine stays parked, and through no other. */
  lemma {:induction false} ParkedExactlyUntilReleased(schedule: seq<Step>, more: seq<Step>, id: Id)
    requires Feasible(schedule + more)
    requires Run(schedule).world.open && id in Run(schedule).world.senders
    ensures NeverReleased(schedule, more, id) <==>
            forall k :: 0 <= k <= |more| ==> id in Run(schedule + more[..k]).world.senders
    ensures NeverReleased(schedule, more, id) ==> Run(schedule + more).world.open
    decreases |more|
  {
    hide Run, Feasible, Enabled, Apply, Releases;
    if more == [] {
      assert schedule + more == schedule;
      assert more[..0] == [];
    } else {
      var n := |more| - 1;
      var front, t := more[..n], more[n];
      assert schedule + more == schedule + front + [t];
      RunAppend(schedule + front, t);
      ParkedExactlyUntilReleased(schedule, front, id);
      assert forall k :: 0 <= k <= n ==> front[..k] == more[..k];
      assert more[..n + 1] == more;
      if NeverReleased(schedule, front, id) {
        assert front[..n] == front;
        SenderReleasedExactlyWhen(schedule + front, t, id);
        StaysOpen(Run(schedule + front), t, id);
      } else {
        var k :| 0 <= k < n && Releases(Run(schedule + front[..k]), front[k], id);
        assert more[k] == front[k] && more[..k] == front[..k];
      }
    }
  }

  lemma StaysOpen(s: State, t: Step, id: Id)
    requires s.world.open
    ensures !Releases(s, t, id) ==> Apply(s, t).world.open
  {
  }

  /** Such a coroutine can exist: a run that ends with the mutex free, nobody waiting, and coroutine 4 still parked. */
  lemma ParkedSenderExample()
    ensures var run := [LockEnter(1), LockEnter(2), UnlockEnter(1)] + [LockEnter(3), UnlockEnter(3), LockEnter(4)] +
                       [UnlockEnter(4), LockResume(2), UnlockEnter(2)];
            && Feasible(run)
            && Run(run) == State(false, 0, World(true, 1, [], [4], {}, {}, {}, {1, 3}))
  {
    var s3 := State(false, 1, World(true, 0, [], [], {2}, {}, {}, {1}));
    var s6 := State(true, 1, World(true, 1, [], [], {2}, {}, {4}, {1, 3}));
    assert [] + [LockEnter(1), LockEnter(2), UnlockEnter(1)] == [LockEnter(1), LockEnter(2), UnlockEnter(1)];
    ThreeSteps([], LockEnter(1), LockEnter(2), UnlockEnter(1), s3);
    var first := [LockEnter(1), LockEnter(2), UnlockEnter(1)];
    ThreeSteps(first, LockEnter(3), UnlockEnter(3), LockEnter(4), s6);
    ThreeSteps(first + [LockEnter(3), UnlockEnter(3), LockEnter(4)], UnlockEnter(4), LockResume(2), UnlockEnter(2),
               State(false, 0, World(true, 1, [], [4], {}, {}, {}, {1, 3})));
  }

  lemma ThreeSteps(run: seq<Step>, a: Step, b: Step, c: Step, s': State)
    requires Feasible(run) && Enabled(Run(run), a)
    requires var s1 := Apply(Run(run), a);
             Enabled(s1, b) && Enabled(Apply(s1, b), c) && Apply(Apply(s1, b), c) == s'
    ensures Feasible(run + [a, b, c]) && Run(run + [a, b, c]) == s'
  {
    RunAppend(run, a);
    RunAppend(run + [a], b);
    RunAppend(run + [a] + [b], c);
    assert run + [a] + [b] + [c] == run + [a, b, c];
  }

  // ---- The object ----

  /** The mutex object, one method per stretch of Lock, Unlock and Close between suspensions; each is proved to be the
      step of the same name. */
  class AsyncChannelMutex {
    var locked: bool
    var waitCount: int
    var world: World

    ghost function View(): State
      reads this
    {
      State(locked, waitCount, world)
    }

    constructor ()
      ensures View() == INIT
    {
      locked, waitCount, world := false, 0, INIT.world;
    }

    /** On an open mutex the caller is afterwards the only one inside, or counted as waiting behind a holder; on a closed
        one it is inside in any case. */
    method Lock(id: Id)
      requires Inv(View()) && Enabled(View(), LockEnter(id))
      modifies this
      ensures Inv(View()) && View() == Apply(old(View()), LockEnter(id))
      ensures id in world.inside <==> !old(world.open) || !old(locked)
      ensures world.open && id in world.inside ==> world.inside == {id} && locked && waitCount == old(waitCount)
      ensures id !in world.inside ==> Waits(world, id) && world.inside == old(world.inside) && waitCount == old(waitCount) + 1
    {
      StepKeepsInv(View(), LockEnter(id));
      if !world.open {
        world := world.(inside := world.inside + {id});
        return;
      }
      if locked {
        ReceiveKeepsPlaces(world, id);
      }
      TestAndWait(id);
    }

    method TestAndWait(id: Id)
      modifies this
      ensures View() == LockLoop(old(View()), id)
    {
      if locked {
        waitCount := waitCount + 1;
        world := Receive(world, id);
      } else {
        locked := true;
        world := world.(inside := world.inside + {id});
      }
    }

    /** A woken waiter takes the mutex exactly if it finds it free, and then alone; else it waits again, as one of just as
        many. */
    method ResumeLock(id: Id)
      requires Inv(View()) && Enabled(View(), LockResume(id))
      modifies this
      ensures Inv(View()) && View() == Apply(old(View()), LockResume(id))
      ensures id in world.inside <==> !old(locked)
      ensures world.open && id in world.inside ==> world.inside == {id} && waitCount == old(waitCount) - 1
      ensures id !in world.inside && world.open ==> Waits(world, id) && waitCount == old(waitCount)
    {
      hide OnePlace, ChannelOk;
      StepKeepsInv(View(), LockResume(id));
      WokenIsNotInside(View(), id);
      world := world.(woken := world.woken - {id});
      waitCount := waitCount - 1;
      TestAndWait(id);
    }

    /** A waiter that a Close has woken goes on as if it had the mutex. */
    method ResumeLockWithError(id: Id)
      requires Inv(View()) && Enabled(View(), LockCancelled(id))
      modifies this
      ensures Inv(View()) && View() == Apply(old(View()), LockCancelled(id))
      ensures !world.open && id in world.inside && waitCount == old(waitCount) - 1
    {
      StepKeepsInv(View(), LockCancelled(id));
      waitCount := waitCount - 1;
      world := world.(cancelled := world.cancelled - {id}, inside := world.inside + {id});
    }

    /** On an open mutex nobody is inside afterwards, and if anybody waits, somebody is awake who will find it free. */
    method Unlock(id: Id)
      requires Inv(View()) && Enabled(View(), UnlockEnter(id))
      modifies this
      ensures Inv(View()) && View() == Apply(old(View()), UnlockEnter(id))
      ensures world.open ==> world.inside == {} && !locked && (waitCount > 0 ==> world.woken != {})
      ensures waitCount == old(waitCount)
    {
      LeaveKeepsInv(View(), id);
      world := world.(inside := world.inside - {id});
      if !world.open {
        return;
      }
      locked := false;
      if waitCount > 0 {
        world := Send(world, id);
      }
    }

    method ResumeUnlock(id: Id)
      requires Inv(View()) && Enabled(View(), UnlockResume(id))
      modifies this
      ensures Inv(View()) && View() == Apply(old(View()), UnlockResume(id)) && Outside(world, id)
    {
      StepKeepsInv(View(), UnlockResume(id));
      world := world.(sendDone := world.sendDone - {id});
    }

    /** Close leaves nobody parked: every parked waiter resumes with an error, every parked sender goes on; who was inside
        stays inside. */
    method Shutdown()
      modifies this
      requires Inv(View())
      ensures Inv(View()) && View() == Apply(old(View()), Close)
      ensures !world.open && world.receivers == [] && world.senders == [] && world.inside == old(world.inside)
      ensures forall id <- old(world.receivers) :: id in world.cancelled
      ensures forall id <- old(world.senders) :: id in world.sendDone
    {
      StepKeepsInv(View(), Close);
      world := Shut(world);
    }
  }

  lemma WokenIsNotInside(s: State, id: Id)
    requires Inv(s) && id in s.world.woken
    ensures id !in s.world.inside && (s.world.open && !s.locked ==> s.world.inside == {})
  {
  }

  /** Parked in a receive, or woken and not yet resumed. */
  predicate Waits(w: World, id: Id) {
    id in w.receivers || id in w.woken
  }
}
