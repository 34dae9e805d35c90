/** The timer wheel: 128 slots of ten milliseconds, of which one is looked at every 99 milliseconds
    (snova/util/time_wheel.cc). */
module TimeWheel {
  import opened Wire

  type Id = nat

  const SLOTS: nat := 128
  const SLOT_MS: nat := 10
  const TURN_MS: nat := 1280
  const PERIOD_MS: nat := 99

  datatype TimerTask = TimerTask(timeout: U64, createTime: U64, hasActive: bool, canceled: bool)

  /** `queue` is what is left of the slot the running tick took out, `now` the time that tick captured. */
  datatype State = State(slots: seq<seq<Id>>, queue: seq<Id>, now: U64, tasks: map<Id, TimerTask>, fired: seq<Id>)

  function EmptySlots(n: nat): (slots: seq<seq<Id>>)
    ensures |slots| == n
  {
    seq(n, i => [])
  }

  const INIT: State := State(EmptySlots(SLOTS), [], 0, map[], [])

  // ---- Arithmetic of the code ----

  function Add64(a: U64, b: U64): U64 {
    (a + b) % TWO_TO_THE_64
  }

  function Sub64(a: U64, b: U64): U64 {
    (a - b) % TWO_TO_THE_64
  }

  function GetIdxByMillsecs(ms: nat): (i: nat)
    ensures i < SLOTS
  {
    ms / SLOT_MS % SLOTS
  }

  /** The test of the loop in Run, in unsigned arithmetic. */
  predicate Due(now: U64, active: U64, timeout: U64) {
    Sub64(now, active) > timeout
  }

  /** A task is due when its timeout has elapsed; and also, whatever its timeout, when its active time lies a little ahead
      of the captured time, because the subtraction wraps. */
  lemma DueExactlyWhen(now: U64, active: U64, timeout: U64)
    ensures Due(now, active, timeout) <==>
            if active <= now then now - active > timeout else active - now < TWO_TO_THE_64 - timeout
  {
  }

  // ---- Steps ----

  datatype Step =
    | Register(id: Id, timeout: U64, hasActive: bool, at: U64)
    | Cancel(id: Id)
    | Begin(time: U64)
    | Next(active: U64)   // the value of the head task's get_active_time, if it has one

  predicate Enabled(s: State, t: Step) {
    match t
    case Register(id, _, _, _) => id !in s.tasks
    case Cancel(id) => id in s.tasks
    case Begin(_) => s.queue == []
    case Next(_) => s.queue != [] && s.queue[0] in s.tasks
  }

  function PutInto(slots: seq<seq<Id>>, i: nat, id: Id): seq<seq<Id>>
    requires i < |slots|
  {
    slots[i := slots[i] + [id]]
  }

  function ActiveTime(k: TimerTask, active: U64): U64 {
    if k.hasActive then active else k.createTime
  }

  function Apply(s: State, t: Step): State
    requires |s.slots| == SLOTS
  {
    if !Enabled(s, t) then s
    else
      match t
      case Register(id, timeout, hasActive, at) =>
        var k := TimerTask(if timeout == 0 then 500 else timeout, at, hasActive, false);
        s.(tasks := s.tasks[id := k], slots := PutInto(s.slots, GetIdxByMillsecs(Add64(at, k.timeout)), id))
      case Cancel(id) => s.(tasks := s.tasks[id := s.tasks[id].(canceled := true)])
      case Begin(time) =>
        var i := GetIdxByMillsecs(time);
        s.(queue := s.slots[i], slots := s.slots[i := []], now := time)
      case Next(active) =>
        var id := s.queue[0];
        var k := s.tasks[id];
        var s' := s.(queue := s.queue[1..]);
        var a := ActiveTime(k, active);
        if k.canceled then s'
        else if Due(s.now, a, k.timeout) then s'.(fired := s.fired + [id])
        else s'.(slots := PutInto(s.slots, GetIdxByMillsecs(Add64(Add64(a, k.timeout), 100)), id))
  }

  // ---- The wheel as a flat list of timers ----

  function Occurrences(q: seq<Id>, id: Id): nat {
    multiset(q)[id]
  }

  function InSlots(slots: seq<seq<Id>>, id: Id): nat {
    if slots == [] then 0 else Occurrences(slots[0], id) + InSlots(slots[1..], id)
  }

  /** How often a task stands in the wheel, the slot being processed included. */
  function Places(s: State, id: Id): nat {
    InSlots(s.slots, id) + Occurrences(s.queue, id)
  }

  /** A task that is registered, not cancelled and not fired stands in the wheel exactly once; nothing else stands there,
      except cancelled tasks that have not been dropped yet; nothing fires twice. */
  predicate TaskInv(s: State, id: Id) {
    && Places(s, id) + Occurrences(s.fired, id) <= (if id in s.tasks then 1 else 0)
    && (id in s.tasks && !s.tasks[id].canceled ==> Places(s, id) + Occurrences(s.fired, id) == 1)
  }

  ghost predicate Inv(s: State) {
    |s.slots| == SLOTS && forall id :: TaskInv(s, id)
  }

  lemma {:induction false} SlotUpdate(slots: seq<seq<Id>>, i: nat, q: seq<Id>, id: Id)
    requires i < |slots|
    ensures InSlots(slots[i := q], id) == InSlots(slots, id) - Occurrences(slots[i], id) + Occurrences(q, id)
  {
    if i == 0 {
      assert slots[0 := q][1..] == slots[1..];
    } else {
      SlotUpdate(slots[1..], i - 1, q, id);
      assert slots[i := q][1..] == slots[1..][i - 1 := q];
    }
  }

  lemma SlotPut(slots: seq<seq<Id>>, i: nat, id: Id, x: Id)
    requires i < |slots|
    ensures InSlots(PutInto(slots, i, id), x) == InSlots(slots, x) + if x == id then 1 else 0
  {
    SlotUpdate(slots, i, slots[i] + [id], x);
  }

  lemma {:induction false} NothingInEmptySlots(n: nat, id: Id)
    ensures InSlots(EmptySlots(n), id) == 0
  {
    if n > 0 {
      NothingInEmptySlots(n - 1, id);
      assert EmptySlots(n)[1..] == EmptySlots(n - 1);
    }
  }

  lemma StepKeepsTask(s: State, t: Step, x: Id)
    requires |s.slots| == SLOTS && TaskInv(s, x) && Enabled(s, t)
    ensures |Apply(s, t).slots| == SLOTS && TaskInv(Apply(s, t), x)
  {
    var s' := Apply(s, t);
    match t
    case Register(id, timeout, _, at) =>
      SlotPut(s.slots, GetIdxByMillsecs(Add64(at, s'.tasks[id].timeout)), id, x);
    case Cancel(id) =>
    case Begin(time) =>
      SlotUpdate(s.slots, GetIdxByMillsecs(time), [], x);
    case Next(active) =>
      var id := s.queue[0];
      var k := s.tasks[id];
      var a := ActiveTime(k, active);
      assert s.queue == [id] + s.queue[1..];
      if !k.canceled && !Due(s.now, a, k.timeout) {
        SlotPut(s.slots, GetIdxByMillsecs(Add64(Add64(a, k.timeout), 100)), id, x);
      }
  }

  lemma StepKeepsInv(s: State, t: Step)
    requires Inv(s)
    ensures Inv(Apply(s, t))
  {
    hide TaskInv;
    if Enabled(s, t) {
      forall x ensures TaskInv(Apply(s, t), x) {
        StepKeepsTask(s, t, x);
      }
    }
  }

  function Run(schedule: seq<Step>): (s: State)
    ensures |s.slots| == SLOTS
  {
    if schedule == [] then INIT
    else var n := |schedule| - 1; Apply(Run(schedule[..n]), schedule[n])
  }

  /** Whatever is registered and cancelled while callbacks are running. */
  lemma {:induction false} EveryRunKeepsInv(schedule: seq<Step>)
    ensures Inv(Run(schedule))
  {
    if schedule == [] {
      forall id ensures TaskInv(INIT, id) {
        NothingInEmptySlots(SLOTS, id);
      }
    } else {
      var n := |schedule| - 1;
      EveryRunKeepsInv(schedule[..n]);
      StepKeepsInv(Run(schedule[..n]), schedule[n]);
    }
  }

  /** Between ticks, a pending task stands in exactly one slot. */
  lemma PendingTaskHasOneSlot(schedule: seq<Step>, id: Id)
    requires var s := Run(schedule); s.queue == [] && id in s.tasks && !s.tasks[id].canceled && id !in s.fired
    ensures var s := Run(schedule);
            exists i :: 0 <= i < SLOTS && id in s.slots[i] && forall j :: 0 <= j < SLOTS && j != i ==> id !in s.slots[j]
  {
    EveryRunKeepsInv(schedule);
    var s := Run(schedule);
    assert TaskInv(s, id);
    var i := TheSlot(s.slots, id);
  }

  lemma {:induction false} TheSlot(slots: seq<seq<Id>>, id: Id) returns (i: nat)
    requires InSlots(slots, id) == 1
    ensures i < |slots| && id in slots[i] && forall j :: 0 <= j < |slots| && j != i ==> id !in slots[j]
  {
    if id in slots[0] {
      i := 0;
      NoSlot(slots[1..], id);
      assert forall j :: 1 <= j < |slots| ==> slots[j] == slots[1..][j - 1];
    } else {
      var k := TheSlot(slots[1..], id);
      i := k + 1;
      assert forall j :: 1 <= j < |slots| ==> slots[j] == slots[1..][j - 1];
    }
  }

  lemma {:induction false} NoSlot(slots: seq<seq<Id>>, id: Id)
    requires InSlots(slots, id) == 0
    ensures forall j :: 0 <= j < |slots| ==> id !in slots[j]
  {
    if slots != [] {
      NoSlot(slots[1..], id);
      assert forall j :: 1 <= j < |slots| ==> slots[j] == slots[1..][j - 1];
    }
  }

  /** A task fires at most once, not after it was cancelled, and not before its timeout has elapsed since its active time
      unless that lies ahead of the captured time. */
  lemma FiringIsSound(schedule: seq<Step>, t: Step, id: Id)
    requires var s := Run(schedule); var s' := Apply(s, t); Occurrences(s'.fired, id) > Occurrences(s.fired, id)
    ensures var s := Run(schedule); var s' := Apply(s, t);
            && t.Next? && id in s.tasks && !s.tasks[id].canceled && id !in s.fired && Occurrences(s'.fired, id) == 1
            && (var a := ActiveTime(s.tasks[id], t.active); a <= s.now ==> s.now - a > s.tasks[id].timeout)
  {
    EveryRunKeepsInv(schedule);
    StepKeepsInv(Run(schedule), t);
    var s := Run(schedule);
    assert TaskInv(s, id) && TaskInv(Apply(s, t), id);
    assert t.Next? && Enabled(s, t) && id == s.queue[0];
    DueExactlyWhen(s.now, ActiveTime(s.tasks[id], t.active), s.tasks[id].timeout);
  }

  // ---- How late a timer can be ----

  /** Ticks 99 ms apart visit every slot: 13 ticks advance by 1287 = 1280 + 7, so thirteen interleaved runs sweep the turn
      in steps of 7 < 10. From any time, every slot is visited by one of the next 181 ticks. */
  lemma EverySlotIsVisited(t: nat, slot: nat) returns (k: nat)
    requires slot < SLOTS
    ensures k <= 180 && GetIdxByMillsecs(t + PERIOD_MS * k) == slot
  {
    var d := (SLOT_MS * slot - t) % TURN_MS;
    var r, rem := d / 99, d % 99;
    assert d == 99 * r + rem;
    if d >= 1271 {
      k := 0;
      VisitsSlot(t, slot, d, 0, 1280 - d);
    } else if rem >= 90 {
      k := r + 1;
      VisitsSlot(t, slot, d, k, 99 - rem);
    } else {
      var j := (rem + 6) / 7;
      k := r + 13 * j;
      assert r == 12 ==> rem <= 82;
      assert 99 * k == 99 * r + 7 * j + TURN_MS * j;
      VisitsSlotAfter(t, slot, d, k, 7 * j - rem, j);
    }
  }

  lemma VisitsSlot(t: nat, slot: nat, d: nat, k: nat, over: nat)
    requires slot < SLOTS && d == (SLOT_MS * slot - t) % TURN_MS && over < SLOT_MS
    requires 99 * k == d + over || 99 * k + TURN_MS == d + over
    ensures GetIdxByMillsecs(t + PERIOD_MS * k) == slot
  {
    if 99 * k == d + over {
      VisitsSlotAfter(t, slot, d, k, over, 0);
    } else {
      VisitsSlotAfter(t, slot, d, k, over, -1);
    }
  }

  lemma VisitsSlotAfter(t: nat, slot: nat, d: nat, k: nat, over: nat, turns: int)
    requires slot < SLOTS && d == (SLOT_MS * slot - t) % TURN_MS && over < SLOT_MS
    requires 99 * k == d + over + TURN_MS * turns
    ensures GetIdxByMillsecs(t + PERIOD_MS * k) == slot
  {
    var x := SLOT_MS * slot - t;
    var q := (x - d) / TURN_MS;
    assert x == TURN_MS * q + d;
    var ms := t + PERIOD_MS * k;
    assert ms == SLOT_MS * slot + over + TURN_MS * (turns - q);
    assert ms / SLOT_MS == slot + SLOTS * (turns - q);
  }

  /** The bound is exact: from a time two milliseconds into a turn on, slot 118 is not visited by the first 180 ticks. */
  lemma BoundIsTight(t: nat, k: nat)
    requires t % TURN_MS == 2 && k < 180
    ensures GetIdxByMillsecs(t + PERIOD_MS * k) != 118
  {
    var j, r := k / 13, k % 13;
    var p := 2 + 99 * r + 7 * j;
    assert j <= 13 && (j == 13 ==> r <= 10) && p < TURN_MS;
    PositionInTurn(p, j + t / TURN_MS);
    assert t + PERIOD_MS * k == p + TURN_MS * (j + t / TURN_MS);
    assert r <= 10 ==> p < 1180;
    assert r == 11 ==> j <= 12;
    assert p / SLOT_MS != 118;
  }

  lemma PositionInTurn(p: nat, turns: nat)
    requires p < TURN_MS
    ensures GetIdxByMillsecs(p + TURN_MS * turns) == p / SLOT_MS
  {
    assert (p + TURN_MS * turns) / SLOT_MS == p / SLOT_MS + SLOTS * turns;
  }

  // ---- A tick without suspensions, and the lateness theorem ----

  /** The loop over the taken slot, with the active times given by `act`. */
  function Drain(s: State, act: Id -> U64): (s': State)
    requires |s.slots| == SLOTS && forall id <- s.queue :: id in s.tasks
    ensures |s'.slots| == SLOTS && s'.queue == [] && s'.tasks == s.tasks
    decreases |s.queue|
  {
    if s.queue == [] then s
    else
      assert s.queue == [s.queue[0]] + s.queue[1..];
      Drain(Apply(s, Next(act(s.queue[0]))), act)
  }

  predicate Known(s: State) {
    |s.slots| == SLOTS && s.queue == [] && forall i, id :: 0 <= i < SLOTS && id in s.slots[i] ==> id in s.tasks
  }

  function Tick(s: State, time: U64, act: Id -> U64): State
    requires Known(s)
  {
    Drain(Apply(s, Begin(time)), act)
  }

  /** A pending task in a slot that is not taken stays there. */
  lemma {:induction false} DrainKeepsSlot(s: State, act: Id -> U64, i: nat, id: Id)
    requires |s.slots| == SLOTS && (forall x <- s.queue :: x in s.tasks) && i < SLOTS && id in s.slots[i]
    ensures id in Drain(s, act).slots[i]
    decreases |s.queue|
  {
    if s.queue != [] {
      var s1 := Apply(s, Next(act(s.queue[0])));
      assert s.queue == [s.queue[0]] + s.queue[1..];
      assert id in s1.slots[i];
      DrainKeepsSlot(s1, act, i, id);
    }
  }

  /** A due task in the taken slot fires. */
  lemma {:induction false} DrainFires(s: State, act: Id -> U64, id: Id)
    requires |s.slots| == SLOTS && (forall x <- s.queue :: x in s.tasks)
    requires id in s.fired || (id in s.queue && !s.tasks[id].canceled && Due(s.now, ActiveTime(s.tasks[id], act(id)), s.tasks[id].timeout))
    ensures id in Drain(s, act).fired
    decreases |s.queue|
  {
    if s.queue != [] {
      assert s.queue == [s.queue[0]] + s.queue[1..];
      DrainFires(Apply(s, Next(act(s.queue[0]))), act, id);
    }
  }

  lemma {:induction false} DrainKeepsKnown(s: State, act: Id -> U64)
    requires |s.slots| == SLOTS && (forall x <- s.queue :: x in s.tasks)
    requires forall i, id :: 0 <= i < SLOTS && id in s.slots[i] ==> id in s.tasks
    ensures Known(Drain(s, act))
    decreases |s.queue|
  {
    if s.queue != [] {
      assert s.queue == [s.queue[0]] + s.queue[1..];
      DrainKeepsKnown(Apply(s, Next(act(s.queue[0]))), act);
    }
  }

  /** What happens to the wheel over time: ticks, and registrations and cancellations between them. */
  datatype Action = TickAt(time: U64, act: Id -> U64) | Between(t: Step)

  /** Ticks from `time` on are 99 ms apart; between them nobody cancels `id`; its active time stays `a`. */
  predicate Paced(actions: seq<Action>, time: nat, id: Id, a: U64) {
    actions == [] ||
    match actions[0]
    case TickAt(t, act) => t == time && act(id) == a && Paced(actions[1..], time + PERIOD_MS, id, a)
    case Between(t) => (t.Register? || (t.Cancel? && t.id != id)) && Paced(actions[1..], time, id, a)
  }

  function TickCount(actions: seq<Action>): nat {
    if actions == [] then 0 else (if actions[0].TickAt? then 1 else 0) + TickCount(actions[1..])
  }

  function Perform(s: State, actions: seq<Action>): State
    requires Known(s)
    decreases |actions|
  {
    if actions == [] then s
    else
      ActKeepsKnown(s, actions[0]);
      Perform(Act(s, actions[0]), actions[1..])
  }

  function Act(s: State, action: Action): State
    requires Known(s)
  {
    match action
    case TickAt(time, act) => Tick(s, time, act)
    case Between(t) => if t.Register? || t.Cancel? then Apply(s, t) else s
  }

  lemma ActKeepsKnown(s: State, action: Action)
    requires Known(s)
    ensures Known(Act(s, action))
  {
    if action.TickAt? {
      DrainKeepsKnown(Apply(s, Begin(action.time)), action.act);
    }
  }

  /** The task is pending in slot `i`, with timeout and active time as they stay. */
  predicate PendingIn(s: State, id: Id, i: nat, k: TimerTask) {
    Known(s) && i < SLOTS && id in s.slots[i] && id in s.tasks && s.tasks[id] == k && !k.canceled
  }

  lemma {:induction false} FiredStays(s: State, actions: seq<Action>, id: Id)
    requires Known(s) && id in s.fired
    ensures id in Perform(s, actions).fired
    decreases |actions|
  {
    if actions != [] {
      ActKeepsKnown(s, actions[0]);
      if actions[0].TickAt? {
        DrainFires(Apply(s, Begin(actions[0].time)), actions[0].act, id);
      }
      FiredStays(Act(s, actions[0]), actions[1..], id);
    }
  }

  /** If the n-th of the coming ticks looks at the task's slot and all ticks come after its deadline, it fires. */
  lemma {:induction false} FiresWhenVisited(s: State, actions: seq<Action>, time: nat, id: Id, i: nat, k: TimerTask, a: U64, n: nat)
    requires PendingIn(s, id, i, k) && Paced(actions, time, id, a) && (k.hasActive || k.createTime == a)
    requires a + k.timeout < time
    requires TickCount(actions) > n && GetIdxByMillsecs(time + PERIOD_MS * n) == i
    ensures id in Perform(s, actions).fired
    decreases |actions|
  {
    var rest := actions[1..];
    ActKeepsKnown(s, actions[0]);
    var s1 := Act(s, actions[0]);
    match actions[0]
    case Between(t) =>
      FiresWhenVisited(s1, rest, time, id, i, k, a, n);
    case TickAt(t, act) =>
      var b := Apply(s, Begin(t));
      if GetIdxByMillsecs(time) == i {
        DueExactlyWhen(t, a, k.timeout);
        DrainFires(b, act, id);
        FiredStays(s1, rest, id);
      } else {
        assert n > 0;
        assert time + PERIOD_MS * n == (time + PERIOD_MS) + PERIOD_MS * (n - 1);
        DrainKeepsSlot(b, act, i, id);
        FiresWhenVisited(s1, rest, time + PERIOD_MS, id, i, k, a, n - 1);
      }
  }

  lemma {:induction false} StandsInSlots(slots: seq<seq<Id>>, i: nat, id: Id)
    requires i < |slots| && id in slots[i]
    ensures InSlots(slots, id) >= 1
  {
    if i > 0 {
      StandsInSlots(slots[1..], i - 1, id);
    }
  }

  lemma ReachableIsKnown(schedule: seq<Step>)
    requires Run(schedule).queue == []
    ensures Known(Run(schedule))
  {
    EveryRunKeepsInv(schedule);
    var s := Run(schedule);
    forall i, id | 0 <= i < SLOTS && id in s.slots[i] ensures id in s.tasks {
      StandsInSlots(s.slots, i, id);
      assert TaskInv(s, id);
    }
  }

  /** Bounded lateness: take any reachable state between ticks and any task that is registered, not cancelled and not
      fired. If its active time no longer advances and nobody cancels it, it has fired after 181 ticks past its
      deadline, whatever else is registered or cancelled meanwhile. */
  lemma FiresWithin181Ticks(schedule: seq<Step>, actions: seq<Action>, time: nat, id: Id, a: U64)
    requires var s := Run(schedule); s.queue == [] && id in s.tasks && !s.tasks[id].canceled && id !in s.fired
    requires var k := Run(schedule).tasks[id]; (k.hasActive || k.createTime == a) && a + k.timeout < time
    requires Paced(actions, time, id, a) && TickCount(actions) >= 181
    ensures Known(Run(schedule)) && id in Perform(Run(schedule), actions).fired
  {
    var s := Run(schedule);
    ReachableIsKnown(schedule);
    PendingTaskHasOneSlot(schedule, id);
    var i :| 0 <= i < SLOTS && id in s.slots[i];
    var n := EverySlotIsVisited(time, i);
    FiresWhenVisited(s, actions, time, id, i, s.tasks[id], a, n);
  }

  // ---- The bound is reached by a timer ----

  /** `n` ticks and nothing else. */
  function Ticks(time: nat, n: nat, act: Id -> U64): (actions: seq<Action>)
    requires time + PERIOD_MS * n < TWO_TO_THE_64
    decreases n
  {
    if n == 0 then [] else [TickAt(time, act)] + Ticks(time + PERIOD_MS, n - 1, act)
  }

  /** The task stands in slot `i`, nowhere else, and has not fired. */
  predicate OnlyIn(s: State, id: Id, i: nat) {
    Known(s) && i < SLOTS && id in s.slots[i] && id !in s.fired && forall j :: 0 <= j < SLOTS && j != i ==> id !in s.slots[j]
  }

  lemma {:induction false} DrainLeavesOthers(s: State, act: Id -> U64, id: Id)
    requires |s.slots| == SLOTS && (forall x <- s.queue :: x in s.tasks) && id !in s.queue
    ensures var s' := Drain(s, act);
            (id in s'.fired <==> id in s.fired) && forall j :: 0 <= j < SLOTS ==> (id in s'.slots[j] <==> id in s.slots[j])
    decreases |s.queue|
  {
    if s.queue != [] {
      var s1 := Apply(s, Next(act(s.queue[0])));
      assert s.queue == [s.queue[0]] + s.queue[1..];
      assert forall j :: 0 <= j < SLOTS ==> (id in s1.slots[j] <==> id in s.slots[j]);
      DrainLeavesOthers(s1, act, id);
    }
  }

  /** A task does not fire before its slot is visited. */
  lemma {:induction false} UnvisitedStays(s: State, time: nat, n: nat, act: Id -> U64, id: Id, i: nat)
    requires OnlyIn(s, id, i) && time + PERIOD_MS * n < TWO_TO_THE_64
    requires forall k: nat :: k < n ==> GetIdxByMillsecs(time + PERIOD_MS * k) != i
    ensures OnlyIn(Perform(s, Ticks(time, n, act)), id, i)
    decreases n
  {
    hide GetIdxByMillsecs;
    if n > 0 {
      var b := Apply(s, Begin(time));
      assert GetIdxByMillsecs(time + PERIOD_MS * 0) != i;
      DrainLeavesOthers(b, act, id);
      ActKeepsKnown(s, TickAt(time, act));
      var s1 := Act(s, TickAt(time, act));
      assert OnlyIn(s1, id, i);
      forall k: nat | k < n - 1 ensures GetIdxByMillsecs((time + PERIOD_MS) + PERIOD_MS * k) != i {
        assert (time + PERIOD_MS) + PERIOD_MS * k == time + PERIOD_MS * (k + 1);
      }
      UnvisitedStays(s1, time + PERIOD_MS, n - 1, act, id, i);
      var rest := Ticks(time + PERIOD_MS, n - 1, act);
      assert ([TickAt(time, act)] + rest)[1..] == rest;
    }
  }

  lemma {:induction false} TicksArePaced(time: nat, n: nat, act: Id -> U64, id: Id)
    requires time + PERIOD_MS * n < TWO_TO_THE_64
    ensures Paced(Ticks(time, n, act), time, id, act(id)) && TickCount(Ticks(time, n, act)) == n
    decreases n
  {
    if n > 0 {
      TicksArePaced(time + PERIOD_MS, n - 1, act, id);
      var rest := Ticks(time + PERIOD_MS, n - 1, act);
      assert ([TickAt(time, act)] + rest)[1..] == rest;
    }
  }

  /** Timers that late exist: a task without an active time whose deadline falls into slot 118, and ticks that start after
      the deadline and two milliseconds into a turn. After 180 ticks it has not fired, after 181 it has. */
  lemma Fires181TicksLate(id: Id, timeout: U64, at: U64, time: nat, act: Id -> U64)
    requires timeout > 0 && at + timeout < time && time + PERIOD_MS * 181 < TWO_TO_THE_64
    requires GetIdxByMillsecs(at + timeout) == 118 && time % TURN_MS == 2 && act(id) == at
    ensures var s := Run([Register(id, timeout, false, at)]);
            && Known(s)
            && id !in Perform(s, Ticks(time, 180, act)).fired
            && id in Perform(s, Ticks(time, 181, act)).fired
  {
    var run := [Register(id, timeout, false, at)];
    var s := Run(run);
    StandsAlone(id, timeout, at);
    hide Run, Apply, GetIdxByMillsecs, Known, Ticks, Perform, Paced, TickCount;
    ReachableIsKnown(run);
    forall k: nat | k < 180 ensures GetIdxByMillsecs(time + PERIOD_MS * k) != 118 {
      BoundIsTight(time, k);
    }
    UnvisitedStays(s, time, 180, act, id, 118);
    TicksArePaced(time, 181, act, id);
    FiresWithin181Ticks(run, Ticks(time, 181, act), time, id, at);
  }

  lemma StandsAlone(id: Id, timeout: U64, at: U64)
    requires timeout > 0 && at + timeout < TWO_TO_THE_64
    ensures var s := Run([Register(id, timeout, false, at)]);
            && OnlyIn(s, id, GetIdxByMillsecs(at + timeout)) && s.queue == []
            && id in s.tasks && s.tasks[id] == TimerTask(timeout, at, false, false)
  {
    hide GetIdxByMillsecs;
    var run := [Register(id, timeout, false, at)];
    assert run[..0] == [];
    assert Run(run) == Apply(INIT, run[0]);
    ReachableIsKnown(run);
  }

  // ---- What a tick does to a task in its slot ----

  /** A task that stands once in the taken slot fires if it is due; else it is put back, into the slot of its active time
      plus its timeout plus a tenth of a second, and into no other. */
  lemma {:induction false} DrainDecides(s: State, act: Id -> U64, id: Id)
    requires |s.slots| == SLOTS && (forall x <- s.queue :: x in s.tasks) && Occurrences(s.queue, id) == 1
    requires id in s.tasks && !s.tasks[id].canceled && id !in s.fired && forall j :: 0 <= j < SLOTS ==> id !in s.slots[j]
    ensures var s' := Drain(s, act); var k := s.tasks[id]; var a := ActiveTime(k, act(id));
            && (id in s'.fired <==> Due(s.now, a, k.timeout))
            && forall j :: 0 <= j < SLOTS ==>
                 (id in s'.slots[j] <==> !Due(s.now, a, k.timeout) && j == GetIdxByMillsecs(Add64(Add64(a, k.timeout), 100)))
    decreases |s.queue|
  {
    hide GetIdxByMillsecs, Due;
    var x := s.queue[0];
    assert s.queue == [x] + s.queue[1..];
    var s1 := Apply(s, Next(act(x)));
    if x == id {
      assert id !in s1.queue;
      DrainLeavesOthers(s1, act, id);
    } else {
      DrainDecides(s1, act, id);
    }
  }

  lemma OnceInSlot(slots: seq<seq<Id>>, i: nat, id: Id)
    requires InSlots(slots, id) == 1 && i < |slots| && id in slots[i]
    ensures Occurrences(slots[i], id) == 1 && forall j :: 0 <= j < |slots| && j != i ==> id !in slots[j]
  {
    SlotUpdate(slots, i, [], id);
    NoSlot(slots[i := []], id);
    assert forall j :: 0 <= j < |slots| && j != i ==> slots[i := []][j] == slots[j];
  }

  /** After every run, a tick at a time that falls into the slot of a pending task decides: if more than the timeout has
      elapsed since the active time, the task fires and is out of the wheel; else it stands in exactly the slot of active
      time + timeout + 100 milliseconds. */
  lemma TickDecides(schedule: seq<Step>, time: U64, act: Id -> U64, id: Id, i: nat)
    requires var s := Run(schedule); s.queue == [] && id in s.tasks && !s.tasks[id].canceled && id !in s.fired
    requires i < SLOTS && id in Run(schedule).slots[i] && time / 10 % 128 == i
    requires var k := Run(schedule).tasks[id]; var a := ActiveTime(k, act(id));
             a <= time && a + k.timeout + 100 < TWO_TO_THE_64
    ensures var s := Run(schedule); var k := s.tasks[id]; var a := ActiveTime(k, act(id));
            var target := (a + k.timeout + 100) / 10 % 128;
            && Known(s)
            && var s' := Tick(s, time, act);
               && (id in s'.fired <==> time - a > k.timeout)
               && forall j :: 0 <= j < SLOTS ==> (id in s'.slots[j] <==> time - a <= k.timeout && j == target)
  {
    hide Run, Drain, Due, GetIdxByMillsecs, Add64, Known, Occurrences, OnlyIn;
    var s := Run(schedule);
    var k := s.tasks[id];
    PendingStands(schedule, id, i);
    SlotIs(time);
    TakenSlot(s, time, act, id, i);
    DueExactlyWhen(time, ActiveTime(k, act(id)), k.timeout);
    PutBackSlot(ActiveTime(k, act(id)), k.timeout);
  }

  lemma PendingStands(schedule: seq<Step>, id: Id, i: nat)
    requires var s := Run(schedule); s.queue == [] && id in s.tasks && !s.tasks[id].canceled && id !in s.fired
    requires i < SLOTS && id in Run(schedule).slots[i]
    ensures var s := Run(schedule); Known(s) && OnlyIn(s, id, i) && Occurrences(s.slots[i], id) == 1
  {
    EveryRunKeepsInv(schedule);
    ReachableIsKnown(schedule);
    hide Run;
    assert TaskInv(Run(schedule), id);
    OnceInSlot(Run(schedule).slots, i, id);
  }

  lemma SlotIs(ms: nat)
    ensures GetIdxByMillsecs(ms) == ms / 10 % 128
  {
  }

  lemma PutBackSlot(a: U64, timeout: U64)
    requires a + timeout + 100 < TWO_TO_THE_64
    ensures GetIdxByMillsecs(Add64(Add64(a, timeout), 100)) == (a + timeout + 100) / 10 % 128
  {
    hide GetIdxByMillsecs;
    assert Add64(Add64(a, timeout), 100) == a + timeout + 100;
    SlotIs(a + timeout + 100);
  }

  lemma TakenSlot(s: State, time: U64, act: Id -> U64, id: Id, i: nat)
    requires OnlyIn(s, id, i) && Occurrences(s.slots[i], id) == 1 && GetIdxByMillsecs(time) == i
    requires id in s.tasks && !s.tasks[id].canceled
    ensures var s' := Tick(s, time, act); var k := s.tasks[id]; var a := ActiveTime(k, act(id));
            && |s'.slots| == SLOTS
            && (id in s'.fired <==> Due(time, a, k.timeout))
            && forall j :: 0 <= j < SLOTS ==>
                 (id in s'.slots[j] <==> !Due(time, a, k.timeout) && j == GetIdxByMillsecs(Add64(Add64(a, k.timeout), 100)))
  {
    hide GetIdxByMillsecs, Due, Add64;
    var b := Apply(s, Begin(time));
    assert b.queue == s.slots[i] && b.now == time && b.fired == s.fired && b.tasks == s.tasks;
    DrainDecides(b, act, id);
  }

  // ---- Timers that are early, and timers that were cancelled ----

  /** The wrapping subtraction in a run: a task of any timeout is looked at when its slot comes up, its active time is one
      millisecond ahead of the captured time, and it fires. */
  lemma FiresEarly(id: Id, timeout: U64, at: U64)
    requires timeout > 0 && at + timeout + 1 < TWO_TO_THE_64
    ensures var s := Run([Register(id, timeout, true, at)]);
            id in Apply(Apply(s, Begin(at + timeout)), Next(at + timeout + 1)).fired
  {
    var run := [Register(id, timeout, true, at)];
    assert run[..0] == [];
    assert Run(run) == Apply(INIT, run[0]);
    NoWrap(at, timeout);
    hide GetIdxByMillsecs, Add64, Due, Run;
    var s1 := Apply(Run(run), Begin(at + timeout));
    assert s1.queue == [id];
    DueExactlyWhen(at + timeout, at + timeout + 1, timeout);
  }

  lemma NoWrap(a: U64, b: U64)
    requires a + b < TWO_TO_THE_64
    ensures Add64(a, b) == a + b
  {
  }

  function RunFrom(s: State, steps: seq<Step>): (s': State)
    requires |s.slots| == SLOTS
    ensures |s'.slots| == SLOTS
    decreases |steps|
  {
    if steps == [] then s else RunFrom(Apply(s, steps[0]), steps[1..])
  }

  /** Whatever happens afterwards, a cancelled task that has not fired never will. */
  lemma {:induction false} CancelledNeverFires(s: State, steps: seq<Step>, id: Id)
    requires |s.slots| == SLOTS && id in s.tasks && s.tasks[id].canceled && id !in s.fired
    ensures id !in RunFrom(s, steps).fired
    decreases |steps|
  {
    if steps != [] {
      var s1 := Apply(s, steps[0]);
      assert id in s1.tasks && s1.tasks[id].canceled && id !in s1.fired;
      CancelledNeverFires(s1, steps[1..], id);
    }
  }

  // ---- The object ----

  /** The wheel object: registration, the cancel closure, and one turn of the loop in Run with callbacks that do not
      suspend. */
  class Wheel {
    var slots: seq<seq<Id>>
    var queue: seq<Id>
    var now: U64
    var tasks: map<Id, TimerTask>
    var fired: seq<Id>

    ghost function View(): State
      reads this
    {
      State(slots, queue, now, tasks, fired)
    }

    constructor ()
      ensures View() == INIT
    {
      slots, queue, now, tasks, fired := EmptySlots(SLOTS), [], 0, map[], [];
    }

    /** The new task stands in exactly one slot, that of its deadline; a timeout of zero counts as half a second. */
    method DoRegister(id: Id, timeoutMsecs: U64, hasActive: bool, at: U64)
      requires Inv(View()) && id !in tasks
      modifies this
      ensures Inv(View()) && View() == Apply(old(View()), Register(id, timeoutMsecs, hasActive, at))
      ensures var i := GetIdxByMillsecs(Add64(at, if timeoutMsecs == 0 then 500 else timeoutMsecs));
              forall j :: 0 <= j < SLOTS ==> (id in slots[j] <==> j == i)
      ensures id in tasks && !tasks[id].canceled && id !in queue && id !in fired
    {
      hide GetIdxByMillsecs;
      StepKeepsInv(View(), Register(id, timeoutMsecs, hasActive, at));
      assert TaskInv(View(), id);
      NoSlot(slots, id);
      var timeout := timeoutMsecs;
      if timeout == 0 {
        timeout := 500;
      }
      tasks := tasks[id := TimerTask(timeout, at, hasActive, false)];
      var i := GetIdxByMillsecs(Add64(at, timeout));
      slots := slots[i := slots[i] + [id]];
    }

    /** The cancel closure: a task that has not fired yet never fires, whatever happens from now on. */
    method CancelTask(id: Id)
      requires Inv(View()) && id in tasks
      modifies this
      ensures Inv(View()) && View() == Apply(old(View()), Cancel(id))
      ensures id !in old(fired) ==> forall steps: seq<Step> :: id !in RunFrom(View(), steps).fired
    {
      StepKeepsInv(View(), Cancel(id));
      tasks := tasks[id := tasks[id].(canceled := true)];
      if id !in fired {
        forall steps: seq<Step> ensures id !in RunFrom(View(), steps).fired {
          CancelledNeverFires(View(), steps, id);
        }
      }
    }

    /** The slot is moved out before the loop, so that a task put back into the same slot waits for a later visit. */
    method RunOnce(time: U64, act: Id -> U64)
      requires Known(View())
      modifies this
      ensures View() == Tick(old(View()), time, act)
    {
      hide GetIdxByMillsecs, Add64, Sub64;
      now := time;
      var idx := GetIdxByMillsecs(now);
      queue := slots[idx];
      slots := slots[idx := []];
      assert View() == Apply(old(View()), Begin(time));
      while queue != []
        invariant |slots| == SLOTS && forall id <- queue :: id in tasks
        invariant Drain(View(), act) == Tick(old(View()), time, act)
        decreases |queue|
      {
        var id := queue[0];
        assert queue == [id] + queue[1..];
        var task := tasks[id];
        queue := queue[1..];
        if !task.canceled {
          var activeTime := if task.hasActive then act(id) else task.createTime;
          if Sub64(now, activeTime) > task.timeout {
            fired := fired + [id];
          } else {
            var next := GetIdxByMillsecs(Add64(Add64(activeTime, task.timeout), 100));
            slots := slots[next := slots[next] + [id]];
          }
        }
      }
    }
  }
}
