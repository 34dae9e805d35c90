/** A whole connection: the two directions, the authentication handshake that switches all counters in midstream, and
    then any number of writers at both ends (snova/mux/mux_connection.cc, ServerAuth, ClientAuth, Write, ReadEvent). */
module Handshake {
  import opened Wire
  import opened MuxEvents
  import opened Cipher
  import opened MuxLink
  import M = ChannelMutex
  import R = ReadPath

  datatype Side = Client | Server

  /** Where an endpoint is: about to write its authentication event, writing it, waiting for the peer's, ready, or given
      up. The client goes Fresh, Greeting, Awaiting, Up; the server Awaiting, Fresh, Greeting, Up. */
  datatype Phase = Fresh | Greeting | Awaiting | Up | Failed

  datatype Sys = Sys(up: Link, down: Link, client: Phase, server: Phase) {
    function Out(side: Side): Link { if side.Client? then up else down }
    function In(side: Side): Link { if side.Client? then down else up }
    function At(side: Side): Phase { if side.Client? then client else server }
    function WithOut(side: Side, l: Link): Sys { if side.Client? then this.(up := l) else this.(down := l) }
    function WithIn(side: Side, l: Link): Sys { if side.Client? then this.(down := l) else this.(up := l) }
    function WithPhase(side: Side, p: Phase): Sys { if side.Client? then this.(client := p) else this.(server := p) }
    /** `UpdateNonce` at one end: its encrypt and its decrypt counter. */
    function UpdateNonce(side: Side, iv: U64): Sys {
      WithOut(side, Out(side).(encIv := iv)).WithIn(side, In(side).(decIv := iv))
    }
  }

  const START: Sys := Sys(MuxLink.INIT, MuxLink.INIT, Fresh, Awaiting)

  datatype Step =
    | StartWrite(side: Side, id: Id, e: Event)
    | ResumeWrite(side: Side, id: Id)
    | Push(side: Side, id: Id, k: nat)
    | FinishWrite(side: Side, id: Id)
    | FailWrite(side: Side, id: Id)    // the transport reports an error; the connection stays in use
    | ResumeUnlock(side: Side, id: Id)
    | Pull(side: Side, k: nat)
    | Take(side: Side, accept: bool)   // `accept`: the server's check of the client's role

  /** The authentication event an endpoint opens with; `iv` is the server's random counter. */
  predicate IsGreeting(side: Side, iv: U64, body: Body) {
    if side.Client? then body.AuthRequest? else body == AuthResponse(true, iv)
  }

  predicate Reading(s: Sys, side: Side) {
    s.At(side) == Awaiting || s.At(side) == Up
  }

  predicate Enabled(env: Env, iv: U64, s: Sys, t: Step) {
    match t
    case StartWrite(side, id, e) =>
      && M.Outside(s.Out(side).mutex.world, id) && Writable(env, e)
      && (s.At(side) == Up || (s.At(side) == Fresh && IsGreeting(side, iv, e.body)))
    case ResumeWrite(side, id) => id in s.Out(side).mutex.world.woken && id in s.Out(side).want
    case Push(side, id, k) =>
      var l := s.Out(side);
      id in l.active && 1 <= k && l.active[id].sent + k <= l.active[id].len <= |l.buffer|
    case FinishWrite(side, id) =>
      var l := s.Out(side);
      id in l.active && l.active[id].sent == l.active[id].len
    case FailWrite(side, id) => id in s.Out(side).active
    case ResumeUnlock(side, id) => id in s.Out(side).mutex.world.sendDone
    case Pull(side, k) =>
      var l := s.In(side);
      Reading(s, side) && Peek(env, l).NeedMore? && 1 <= k <= |l.wire| && |l.readable| + k <= R.READ_BUFFER
    case Take(side, _) => Reading(s, side) && Peek(env, s.In(side)).OpenedEvent?
  }

  /** A step that is not enabled leaves the system alone, so every list of steps is a run. */
  function Apply(env: Env, iv: U64, s: Sys, t: Step): Sys {
    if Enabled(env, iv, s, t) then Do(env, iv, s, t) else s
  }

  function Do(env: Env, iv: U64, s: Sys, t: Step): Sys
    requires Enabled(env, iv, s, t)
  {
    match t
    case StartWrite(side, id, e) =>
      var l := MuxLink.StartWrite(env, s.Out(side), id, e);
      s.WithOut(side, l).WithPhase(side, PhaseAfterStart(s.At(side), l, id))
    case ResumeWrite(side, id) => s.WithOut(side, MuxLink.ResumeWrite(env, s.Out(side), id))
    case Push(side, id, k) => s.WithOut(side, MuxLink.Push(s.Out(side), id, k))
    case FinishWrite(side, id) =>
      var s' := s.WithOut(side, MuxLink.FinishWrite(s.Out(side), id));
      if s.At(side) != Greeting then s'
      else if side.Client? then s'.WithPhase(Client, Awaiting)
      else s'.WithPhase(Server, Up).UpdateNonce(Server, iv)
    case FailWrite(side, id) =>
      var s' := s.WithOut(side, MuxLink.FailWrite(s.Out(side), id));
      if s.At(side) == Greeting then s'.WithPhase(side, Failed) else s'
    case ResumeUnlock(side, id) => s.WithOut(side, MuxLink.ResumeUnlock(s.Out(side), id))
    case Pull(side, k) => s.WithIn(side, MuxLink.Pull(s.In(side), k))
    case Take(side, accept) =>
      var body := Peek(env, s.In(side)).event.body;
      var s' := s.WithIn(side, MuxLink.Take(env, s.In(side)));
      if s.At(side) == Up then s'
      else if side.Server? then s'.WithPhase(Server, if body.AuthRequest? && accept then Fresh else Failed)
      else if body.AuthResponse? && body.success then s'.WithPhase(Client, Up).UpdateNonce(Client, body.iv)
      else s'.WithPhase(Client, Failed)
  }

  /** Write returns false at once when the event could not be sealed. */
  function PhaseAfterStart(p: Phase, l: Link, id: Id): Phase {
    if p == Up then Up else if id in l.active then Greeting else Failed
  }

  function Run(env: Env, iv: U64, schedule: seq<Step>): Sys {
    if schedule == [] then START
    else var n := |schedule| - 1; Apply(env, iv, Run(env, iv, schedule[..n]), schedule[n])
  }

  // ---- Counters ----

  function Plus64(n: U64, k: nat): U64 {
    (n + k) % TWO_TO_THE_64
  }

  /** The counter of the k-th frame of a direction: the first under the default counter, the others from the negotiated
      one on. */
  function Schedule(iv: U64, k: nat): U64 {
    if k == 0 then DEFAULT_IV else Plus64(iv, k - 1)
  }

  lemma ScheduleNext(iv: U64, k: nat)
    requires k >= 1
    ensures Succ64(Schedule(iv, k)) == Schedule(iv, k + 1)
  {
  }

  predicate OnSchedule(iv: U64, log: seq<Entry>) {
    forall i :: 0 <= i < |log| ==> log[i].iv == Schedule(iv, i)
  }

  /** Before an endpoint is ready, its counters are the default one plus the frames sealed or opened so far; afterwards
      they follow the schedule. */
  function CounterAt(iv: U64, p: Phase, k: nat): U64 {
    if p == Up then Schedule(iv, k) else Plus64(DEFAULT_IV, k)
  }

  /** The sending half of an endpoint in a given phase. Before it is ready only its greeting is written, by one
      coroutine; if that write fails, it never gets ready. */
  predicate SendingOk(iv: U64, side: Side, p: Phase, l: Link) {
    && OnSchedule(iv, l.log)
    && (l.log != [] ==> IsGreeting(side, iv, l.log[0].event.body))
    && l.encIv == CounterAt(iv, p, |l.log|)
    && (p != Up ==> l.mutex.waitCount == 0 && |l.log| <= 1)
    && (l.torn == Some(0) ==> p == Failed)
    && match p
       case Fresh => l.log == [] && l.active.Keys == {}
       case Greeting => |l.log| == 1 && |l.active.Keys| == 1
       case Awaiting => |l.log| == (if side.Client? then 1 else 0) && l.active.Keys == {}
       case Up => |l.log| >= 1 && (|l.log| == 1 ==> l.active.Keys == {})
       case Failed => l.active.Keys == {}
  }

  /** The receiving half. */
  predicate ReceivingOk(iv: U64, side: Side, p: Phase, l: Link) {
    && l.decIv == CounterAt(iv, p, |l.delivered|)
    && match p
       case Awaiting => l.delivered == []
       case Up => |l.delivered| >= 1 && IsGreeting(Peer(side), iv, l.delivered[0].body)
       case Failed => |l.delivered| <= 1
       case _ =>
         if side.Client? then l.delivered == [] else |l.delivered| == 1 && IsGreeting(Client, iv, l.delivered[0].body)
  }

  predicate Inv(env: Env, iv: U64, s: Sys) {
    && MuxLink.Inv(env, s.up) && MuxLink.Inv(env, s.down)
    && SendingOk(iv, Client, s.client, s.up) && ReceivingOk(iv, Client, s.client, s.down)
    && SendingOk(iv, Server, s.server, s.down) && ReceivingOk(iv, Server, s.server, s.up)
  }

  // ---- The sending half ----

  /** `e'` is the event `e` with its length field filled in. */
  predicate Stamped(e': Event, e: Event) {
    e' == e.(head := e.head.(len := e'.head.len))
  }

  /** Getting past Lock appends at most the coroutine's own event, under the current counter. */
  lemma LogGrowth(env: Env, l: Link, id: Id)
    requires id in l.want
    ensures var l' := AfterLock(env, l, id);
            && l'.delivered == l.delivered && l'.decIv == l.decIv && l'.torn == l.torn
            && (|| (l'.log == l.log && l'.encIv == l.encIv && (l'.active == l.active || l'.active == l.active - {id}))
                || (exists en :: l'.log == l.log + [en] && en.iv == l.encIv && Stamped(en.event, l.want[id])
                       && l'.encIv == Succ64(l.encIv) && id in l'.active))
  {
    var l' := AfterLock(env, l, id);
    match Seal(env.aead, env.pb, l.encIv, l.want[id], OUT_SIZE)
    case SealedFrame(frame, e) =>
      if id in l.mutex.world.inside {
        assert l'.log == l.log + [Entry(l.encIv, e, frame)];
      }
    case SealError(_, _) =>
  }

  lemma UpLogGrows(iv: U64, side: Side, l: Link, l': Link, en: Entry)
    requires SendingOk(iv, side, Up, l)
    requires l'.log == l.log + [en] && en.iv == l.encIv && l'.encIv == Succ64(l.encIv) && l'.torn == l.torn
    ensures SendingOk(iv, side, Up, l')
  {
    ScheduleNext(iv, |l.log|);
  }

  lemma StartWriteSends(env: Env, iv: U64, side: Side, p: Phase, l: Link, id: Id, e: Event)
    requires MuxLink.Inv(env, l) && SendingOk(iv, side, p, l) && M.Outside(l.mutex.world, id)
    requires p == Up || (p == Fresh && IsGreeting(side, iv, e.body))
    ensures var l' := MuxLink.StartWrite(env, l, id, e);
            && SendingOk(iv, side, PhaseAfterStart(p, l', id), l')
            && l'.delivered == l.delivered && l'.decIv == l.decIv
  {
    hide DataInv, Seal, M.OnePlace, M.ChannelOk;
    var l1 := l.(mutex := M.Apply(l.mutex, M.LockEnter(id)), want := l.want[id := e]);
    var l' := MuxLink.StartWrite(env, l, id, e);
    LogGrowth(env, l1, id);
    if p == Up {
      if l'.log != l.log {
        var en :| l'.log == l.log + [en] && en.iv == l.encIv && l'.encIv == Succ64(l.encIv);
        UpLogGrows(iv, side, l, l', en);
      }
    } else {
      assert l.mutex.world.inside == {} && !l.mutex.locked;
      assert l1.mutex.world.inside == {id};
      if id in l'.active {
        assert l'.active.Keys == {id};
      }
    }
  }

  lemma ResumeWriteSends(env: Env, iv: U64, side: Side, p: Phase, l: Link, id: Id)
    requires MuxLink.Inv(env, l) && SendingOk(iv, side, p, l) && id in l.mutex.world.woken
    ensures id in l.want
    ensures var l' := MuxLink.ResumeWrite(env, l, id);
            SendingOk(iv, side, p, l') && l'.delivered == l.delivered && l'.decIv == l.decIv
  {
    hide DataInv, Seal, M.OnePlace, M.ChannelOk;
    assert |l.mutex.world.woken| > 0;
    assert p == Up;
    var l1 := l.(mutex := M.Apply(l.mutex, M.LockResume(id)));
    var l' := MuxLink.ResumeWrite(env, l, id);
    LogGrowth(env, l1, id);
    if l'.log != l.log {
      var en :| l'.log == l.log + [en] && en.iv == l.encIv && l'.encIv == Succ64(l.encIv);
      UpLogGrows(iv, side, l, l', en);
    }
  }

  lemma FinishWriteSends(iv: U64, side: Side, p: Phase, l: Link, id: Id)
    requires SendingOk(iv, side, p, l) && id in l.active
    ensures var l' := MuxLink.FinishWrite(l, id);
            && l'.delivered == l.delivered && l'.decIv == l.decIv
            && (p == Up ==> SendingOk(iv, side, Up, l'))
            && (p == Greeting && side.Client? ==> SendingOk(iv, side, Awaiting, l'))
            && (p == Greeting && side.Server? ==> SendingOk(iv, side, Up, l'.(encIv := iv)))
            && (p == Up || p == Greeting) && l'.encIv == l.encIv
  {
    var l' := MuxLink.FinishWrite(l, id);
    assert l.active.Keys != {};
    if p == Greeting {
      M.OnlyMember(l.active.Keys, id);
      assert l'.active.Keys == {};
      assert l'.mutex.waitCount == 0;
    }
  }

  lemma FailWriteSends(env: Env, iv: U64, side: Side, p: Phase, l: Link, id: Id)
    requires MuxLink.Inv(env, l) && SendingOk(iv, side, p, l) && id in l.active
    ensures var l' := MuxLink.FailWrite(l, id);
            && l'.delivered == l.delivered && l'.decIv == l.decIv
            && (p == Up || p == Greeting) && SendingOk(iv, side, if p == Greeting then Failed else p, l')
  {
    hide DataInv, M.OnePlace, M.ChannelOk, Schedule;
    var l' := MuxLink.FailWrite(l, id);
    assert l.active.Keys != {};
    OneWriter(env, l, id);
    assert l'.active.Keys == {};
  }

  lemma PushSends(iv: U64, side: Side, p: Phase, l: Link, id: Id, k: nat)
    requires SendingOk(iv, side, p, l)
    requires id in l.active && l.active[id].sent + k <= l.active[id].len <= |l.buffer|
    ensures SendingOk(iv, side, p, MuxLink.Push(l, id, k))
    ensures MuxLink.Push(l, id, k).delivered == l.delivered && MuxLink.Push(l, id, k).decIv == l.decIv
  {
    assert MuxLink.Push(l, id, k).active.Keys == l.active.Keys;
  }

  lemma ResumeUnlockSends(iv: U64, side: Side, p: Phase, l: Link, id: Id)
    requires SendingOk(iv, side, p, l)
    ensures var l' := MuxLink.ResumeUnlock(l, id);
            SendingOk(iv, side, p, l') && l'.delivered == l.delivered && l'.decIv == l.decIv
  {
  }

  // ---- The receiving half ----

  /** A reading endpoint has the counter of the next frame, so before any failed write what it takes is the next event of
      the peer's log; the greeting in any case, since an end whose greeting failed writes nothing behind it. */
  lemma TakeReceives(env: Env, iv: U64, side: Side, p: Phase, l: Link)
    requires MuxLink.Inv(env, l) && OnSchedule(iv, l.log) && ReceivingOk(iv, side, p, l)
    requires (p == Awaiting || p == Up) && (l.torn == Some(0) ==> |l.log| <= 1)
    requires Peek(env, l).OpenedEvent?
    ensures var l' := MuxLink.Take(env, l);
            && MuxLink.Inv(env, l') && l'.delivered == l.delivered + [Peek(env, l).event]
            && (Sound(l) ==> |l.delivered| < |l.log| && Peek(env, l).event == l.log[|l.delivered|].event)
            && (p == Up ==> ReceivingOk(iv, side, Up, l'))
            && (p == Awaiting ==> Sound(l) && |l'.delivered| == 1 && l'.decIv == Plus64(DEFAULT_IV, 1))
  {
    hide MuxLink.Inv, Peek;
    if p == Awaiting {
      SoundAtStart(env, l);
    }
    TakeKeepsInv(env, l);
    if p == Up {
      ScheduleNext(iv, |l.delivered|);
    }
  }

  lemma SoundAtStart(env: Env, l: Link)
    requires MuxLink.Inv(env, l) && l.delivered == [] && (l.torn == Some(0) ==> |l.log| <= 1)
    ensures Sound(l)
  {
  }

  // ---- Every run ----

  lemma StartStepKeepsInv(env: Env, iv: U64, s: Sys, t: Step)
    requires Inv(env, iv, s) && Enabled(env, iv, s, t) && t.StartWrite?
    ensures Inv(env, iv, Do(env, iv, s, t))
  {
    hide MuxLink.Inv, MuxLink.StartWrite, Peek, Writable, M.Outside, SendingOk;
    var l := s.Out(t.side);
    StartWriteKeepsInv(env, l, t.id, t.e);
    StartWriteSends(env, iv, t.side, s.At(t.side), l, t.id, t.e);
  }

  lemma SendStepKeepsInv(env: Env, iv: U64, s: Sys, t: Step)
    requires Inv(env, iv, s) && Enabled(env, iv, s, t)
    requires t.ResumeWrite? || t.Push? || t.ResumeUnlock?
    ensures Inv(env, iv, Do(env, iv, s, t))
  {
    hide MuxLink.Inv, MuxLink.ResumeWrite, MuxLink.Push, MuxLink.ResumeUnlock, Peek, Schedule, SendingOk;
    var l := s.Out(t.side);
    match t
    case ResumeWrite(side, id) =>
      ResumeWriteKeepsInv(env, l, id);
      ResumeWriteSends(env, iv, side, s.At(side), l, id);
    case Push(side, id, k) =>
      PushKeepsInv(env, l, id, k);
      PushSends(iv, side, s.At(side), l, id, k);
    case ResumeUnlock(side, id) =>
      ResumeUnlockKeepsInv(env, l, id);
      ResumeUnlockSends(iv, side, s.At(side), l, id);
  }

  lemma FinishStepKeepsInv(env: Env, iv: U64, s: Sys, t: Step)
    requires Inv(env, iv, s) && Enabled(env, iv, s, t) && t.FinishWrite?
    ensures Inv(env, iv, Do(env, iv, s, t))
  {
    hide MuxLink.Inv, Peek;
    var l := s.Out(t.side);
    FinishWriteKeepsInv(env, l, t.id);
    FinishWriteSends(iv, t.side, s.At(t.side), l, t.id);
    CountersAreFree(env, MuxLink.FinishWrite(l, t.id), iv);
    CountersAreFree(env, s.In(t.side), iv);
  }

  lemma FailStepKeepsInv(env: Env, iv: U64, s: Sys, t: Step)
    requires Inv(env, iv, s) && Enabled(env, iv, s, t) && t.FailWrite?
    ensures Inv(env, iv, Do(env, iv, s, t))
  {
    hide MuxLink.Inv, Peek, SendingOk, MuxLink.FailWrite;
    var l := s.Out(t.side);
    FailWriteKeepsInv(env, l, t.id);
    FailWriteSends(env, iv, t.side, s.At(t.side), l, t.id);
  }

  lemma PullStepKeepsInv(env: Env, iv: U64, s: Sys, t: Step)
    requires Inv(env, iv, s) && Enabled(env, iv, s, t) && t.Pull?
    ensures Inv(env, iv, Do(env, iv, s, t))
  {
    hide MuxLink.Inv, Peek;
    PullKeepsInv(env, s.In(t.side), t.k);
  }

  lemma TakeStepKeepsInv(env: Env, iv: U64, s: Sys, t: Step)
    requires Inv(env, iv, s) && Enabled(env, iv, s, t) && t.Take?
    ensures Inv(env, iv, Do(env, iv, s, t))
  {
    hide MuxLink.Inv, Peek;
    var l := s.In(t.side);
    TakeReceives(env, iv, t.side, s.At(t.side), l);
    var l' := MuxLink.Take(env, l);
    var body := Peek(env, l).event.body;
    if s.At(t.side) == Awaiting {
      if t.side.Server? {
        assert SendingOk(iv, Server, Fresh, s.down) && SendingOk(iv, Server, Failed, s.down);
      } else {
        assert body == AuthResponse(true, iv);
        CountersAreFree(env, l', iv);
        CountersAreFree(env, s.up, iv);
        assert Schedule(iv, 1) == iv;
        assert SendingOk(iv, Client, Up, s.up.(encIv := iv));
        assert SendingOk(iv, Server, s.server, l'.(decIv := iv));
        assert ReceivingOk(iv, Client, Up, l'.(decIv := iv));
        assert ReceivingOk(iv, Server, s.server, s.up.(encIv := iv));
      }
    }
  }

  lemma StepKeepsInv(env: Env, iv: U64, s: Sys, t: Step)
    requires Inv(env, iv, s)
    ensures Inv(env, iv, Apply(env, iv, s, t))
  {
    hide Inv, Do, Enabled;
    if Enabled(env, iv, s, t) {
      match t
      case StartWrite(_, _, _) => StartStepKeepsInv(env, iv, s, t);
      case FinishWrite(_, _) => FinishStepKeepsInv(env, iv, s, t);
      case FailWrite(_, _) => FailStepKeepsInv(env, iv, s, t);
      case Pull(_, _) => PullStepKeepsInv(env, iv, s, t);
      case Take(_, _) => TakeStepKeepsInv(env, iv, s, t);
      case _ => SendStepKeepsInv(env, iv, s, t);
    }
  }

  lemma {:induction false} EveryRunKeepsInv(env: Env, iv: U64, schedule: seq<Step>)
    ensures Inv(env, iv, Run(env, iv, schedule))
  {
    hide Inv, Apply;
    if schedule == [] {
      StartIsInv(env, iv);
    } else {
      var n := |schedule| - 1;
      EveryRunKeepsInv(env, iv, schedule[..n]);
      StepKeepsInv(env, iv, Run(env, iv, schedule[..n]), schedule[n]);
    }
  }

  lemma StartIsInv(env: Env, iv: U64)
    ensures Inv(env, iv, START)
  {
    var l := MuxLink.INIT;
    assert InFlight(l) == [];
    assert l.readable + l.wire == [];
  }

  // ---- The promises ----

  function Peer(side: Side): Side {
    if side.Client? then Server else Client
  }

  /** The events sealed on a link, in the order in which their coroutines got the mutex. */
  function Written(l: Link): (es: seq<Event>)
    ensures |es| == |l.log|
  {
    seq(|l.log|, i requires 0 <= i < |l.log| => l.log[i].event)
  }

  lemma LinkOfRun(env: Env, iv: U64, schedule: seq<Step>, side: Side)
    ensures var s := Run(env, iv, schedule); var l := s.Out(side);
            && MuxLink.Inv(env, l) && OnSchedule(iv, l.log)
            && SendingOk(iv, side, s.At(side), l) && ReceivingOk(iv, Peer(side), s.At(Peer(side)), l)
  {
    EveryRunKeepsInv(env, iv, schedule);
  }

  /** The reader has taken nothing that comes from a failed write or after it. */
  predicate BeforeFailure(l: Link) {
    l.torn.Some? ==> |l.delivered| <= l.torn.value
  }

  /** Whatever the interleaving of writers at both ends, however the bytes are cut into reads and whichever writes fail: the
      events read are the first ones written, in order, up to the first failed write; up to there no read ever meets a
      damaged frame; and when the reader asks for more and nothing is on the wire, it has read all of them: everything, if
      no write has failed and nobody is writing. */
  lemma DeliveredIsPrefixOfWritten(env: Env, iv: U64, schedule: seq<Step>, side: Side)
    ensures var s := Run(env, iv, schedule); var l := s.Out(side);
            && (BeforeFailure(l) ==> l.delivered <= Written(l))
            && (!BeforeFailure(l) ==> l.torn.value <= |l.log| && Written(l)[..l.torn.value] <= l.delivered)
            && (Reading(s, Peer(side)) && Sound(l) ==> !Peek(env, l).OpenError?)
            && (Reading(s, Peer(side)) && Peek(env, l).NeedMore? && l.wire == [] ==>
                  match l.torn
                  case None => l.active.Keys == {} ==> l.delivered == Written(l)
                  case Some(k) => k <= |l.delivered|)
  {
    hide Run, M.Inv, Peek, LogOk, BytesOk, Frames;
    var s := Run(env, iv, schedule);
    var l := s.Out(side);
    LinkOfRun(env, iv, schedule, side);
    LinkCounters(iv, side, s.At(side), s.At(Peer(side)), l);
    if Reading(s, Peer(side)) && Sound(l) {
      PeekIsNextOfLog(env, l);
    }
  }

  /** The counters of the two ends stay in step through the switch, in every reachable state. Every frame of a direction is
      sealed under the counter its reader will have when it gets there. An end that is not up yet, or has given up, counts
      on from the default counter; one that is up follows the schedule; and once both are up the writer is ahead of the
      reader by exactly the frames in flight. */
  lemma CountersInLockStep(env: Env, iv: U64, schedule: seq<Step>, side: Side)
    ensures var s := Run(env, iv, schedule); var l := s.Out(side); var n := |l.delivered|;
            && (BeforeFailure(l) ==> n <= |l.log|)
            && (forall i :: 0 <= i < |l.log| ==> l.log[i].iv == Schedule(iv, i))
            && l.encIv == (if s.At(side) == Up then Schedule(iv, |l.log|) else DEFAULT_IV + |l.log|)
            && l.decIv == (if s.At(Peer(side)) == Up then Schedule(iv, n) else DEFAULT_IV + n)
            && (s.At(side) == Up && s.At(Peer(side)) == Up && n <= |l.log| ==> l.encIv == Plus64(l.decIv, |l.log| - n))
  {
    hide Run, WritersInv, LogOk, BytesOk, Frames, Schedule;
    var s := Run(env, iv, schedule);
    LinkOfRun(env, iv, schedule, side);
    LinkCounters(iv, side, s.At(side), s.At(Peer(side)), s.Out(side));
  }

  lemma LinkCounters(iv: U64, side: Side, p: Phase, q: Phase, l: Link)
    requires SendingOk(iv, side, p, l) && ReceivingOk(iv, Peer(side), q, l)
    ensures q == Awaiting || q == Up ==> l.decIv == Schedule(iv, |l.delivered|)
    ensures p == Up && q == Up && |l.delivered| <= |l.log| ==> l.encIv == Plus64(l.decIv, |l.log| - |l.delivered|)
    ensures p != Up ==> l.encIv == DEFAULT_IV + |l.log|
    ensures q != Up ==> l.decIv == DEFAULT_IV + |l.delivered|
  {
    if p == Up && q == Up && |l.delivered| <= |l.log| {
      ScheduleDistance(iv, |l.delivered|, |l.log| - |l.delivered|);
    }
  }

  lemma ScheduleDistance(iv: U64, n: nat, k: nat)
    requires n >= 1
    ensures Schedule(iv, n + k) == Plus64(Schedule(iv, n), k)
  {
    assert (iv + (n + k - 1)) % TWO_TO_THE_64 == ((iv + (n - 1)) % TWO_TO_THE_64 + k) % TWO_TO_THE_64;
  }

  /** The write buffer is shared by all coroutines, and never changes while one of them is writing it out. */
  lemma BufferIsStableWhileWriting(env: Env, iv: U64, schedule: seq<Step>, t: Step, side: Side)
    requires Run(env, iv, schedule).Out(side).active.Keys != {}
    ensures var l := Run(env, iv, schedule).Out(side); var l' := Apply(env, iv, Run(env, iv, schedule), t).Out(side);
            l'.buffer == l.buffer && l'.log == l.log && |l.active.Keys| == 1
  {
    hide Run, DataInv, Peek, Writable, M.OnePlace, M.ChannelOk, M.Apply, AfterLock;
    LinkOfRun(env, iv, schedule, side);
    var s := Run(env, iv, schedule);
    var l := s.Out(side);
    assert |l.mutex.world.inside| == 1 && l.mutex.locked;
    if Enabled(env, iv, s, t) && t.side == side && (t.StartWrite? || t.ResumeWrite?) {
      match t
      case StartWrite(_, id, e) =>
        LockedOut(l.mutex, id);
        StillWaiting(env, l.(mutex := M.Apply(l.mutex, M.LockEnter(id)), want := l.want[id := e]), id);
      case ResumeWrite(_, id) =>
        LockedOutAgain(l.mutex, id);
        StillWaiting(env, l.(mutex := M.Apply(l.mutex, M.LockResume(id))), id);
    } else {
      LogAndWantKept(env, iv, s, t, side);
    }
  }

  lemma StillWaiting(env: Env, l: Link, id: Id)
    requires id in l.want && id !in l.mutex.world.inside
    ensures AfterLock(env, l, id) == l
  {
  }

  lemma LockedOut(m: M.State, id: Id)
    requires m.locked && m.world.open && id !in m.world.inside
    ensures id !in M.Apply(m, M.LockEnter(id)).world.inside
  {
  }

  lemma LockedOutAgain(m: M.State, id: Id)
    requires M.OnePlace(m.world) && m.locked && id in m.world.woken
    ensures id !in M.Apply(m, M.LockResume(id)).world.inside
  {
  }

  /** Each step leaves a direction alone, appends the event of the coroutine that got the mutex, or takes the next event:
      it refines a queue, as long as the reader has not come to a failed write. */
  lemma StepRefinesQueue(env: Env, iv: U64, schedule: seq<Step>, t: Step, side: Side)
    ensures var l := Run(env, iv, schedule).Out(side); var l' := Apply(env, iv, Run(env, iv, schedule), t).Out(side);
            || (Written(l') == Written(l) && l'.delivered == l.delivered)
            || (|l'.log| == |l.log| + 1 && Written(l')[..|l.log|] == Written(l) && l'.delivered == l.delivered &&
                Requested(l, t, side, Written(l')[|l.log|]))
            || (Written(l') == Written(l) && |l.delivered| < |l.log| &&
                l'.delivered == l.delivered + [Written(l)[|l.delivered|]])
            || (Written(l') == Written(l) && !Sound(l) && |l'.delivered| == |l.delivered| + 1)
  {
    hide Enabled, Do, MuxLink.Inv;
    var s := Run(env, iv, schedule);
    LinkOfRun(env, iv, schedule, side);
    if Enabled(env, iv, s, t) {
      StepOnLink(env, iv, s, t, side);
    }
  }

  /** The step lets a coroutine past Lock whose event is `e`. */
  predicate Requested(l: Link, t: Step, side: Side, e: Event) {
    t.side == side &&
    match t
    case StartWrite(_, _, wanted) => Stamped(e, wanted)
    case ResumeWrite(_, id) => id in l.want && Stamped(e, l.want[id])
    case _ => false
  }

  lemma StepOnLink(env: Env, iv: U64, s: Sys, t: Step, side: Side)
    requires Enabled(env, iv, s, t)
    requires MuxLink.Inv(env, s.Out(side)) && OnSchedule(iv, s.Out(side).log)
    requires s.Out(side).torn == Some(0) ==> |s.Out(side).log| <= 1
    requires ReceivingOk(iv, Peer(side), s.At(Peer(side)), s.Out(side))
    ensures var l := s.Out(side); var l' := Do(env, iv, s, t).Out(side);
            || (l'.log == l.log && l'.delivered == l.delivered)
            || (l'.log != [] && l'.log[..|l'.log| - 1] == l.log && l'.delivered == l.delivered &&
                Requested(l, t, side, l'.log[|l'.log| - 1].event))
            || (l'.log == l.log && |l.delivered| < |l.log| && l'.delivered == l.delivered + [l.log[|l.delivered|].event])
            || (l'.log == l.log && !Sound(l) && |l'.delivered| == |l.delivered| + 1)
  {
    hide MuxLink.Inv, Peek, AfterLock, Writable;
    var l := s.Out(side);
    if t.side == side {
      match t
      case StartWrite(_, id, e) =>
        LogGrowth(env, l.(mutex := M.Apply(l.mutex, M.LockEnter(id)), want := l.want[id := e]), id);
      case ResumeWrite(_, id) =>
        LogGrowth(env, l.(mutex := M.Apply(l.mutex, M.LockResume(id))), id);
      case _ =>
    } else if t.Take? {
      TakeReceives(env, iv, Peer(side), s.At(Peer(side)), l);
    }
  }

  /** Only a coroutine at Lock changes what is logged, waiting or in the write buffer. */
  lemma LogAndWantKept(env: Env, iv: U64, s: Sys, t: Step, side: Side)
    requires !(Enabled(env, iv, s, t) && t.side == side && (t.StartWrite? || t.ResumeWrite?))
    ensures var l, l' := s.Out(side), Apply(env, iv, s, t).Out(side);
            l'.log == l.log && l'.want == l.want && l'.buffer == l.buffer
  {
    hide Peek, M.Leave, M.Apply, Writable, AfterLock;
  }

  /** A waiting coroutine keeps its event until it resumes itself. */
  lemma WaitingEventIsKept(env: Env, iv: U64, schedule: seq<Step>, t: Step, side: Side, id: Id)
    requires id in Run(env, iv, schedule).Out(side).want
    ensures var l := Run(env, iv, schedule).Out(side); var l' := Apply(env, iv, Run(env, iv, schedule), t).Out(side);
            t == ResumeWrite(side, id) || (id in l'.want && l'.want[id] == l.want[id])
  {
    hide Run, DataInv, M.Inv, M.Apply, M.Leave, Peek, Writable, AfterLock;
    LinkOfRun(env, iv, schedule, side);
    var s := Run(env, iv, schedule);
    var l := s.Out(side);
    if Enabled(env, iv, s, t) && t.side == side && (t.StartWrite? || t.ResumeWrite?) {
      assert id in l.mutex.world.receivers || id in l.mutex.world.woken;
      match t
      case StartWrite(_, x, e) =>
        OthersKeepWanting(env, l.(mutex := M.Apply(l.mutex, M.LockEnter(x)), want := l.want[x := e]), x);
      case ResumeWrite(_, x) =>
        OthersKeepWanting(env, l.(mutex := M.Apply(l.mutex, M.LockResume(x))), x);
    } else {
      LogAndWantKept(env, iv, s, t, side);
    }
  }

  lemma OthersKeepWanting(env: Env, l: Link, x: Id)
    requires x in l.want
    ensures var l' := AfterLock(env, l, x); l'.want == l.want || l'.want == l.want - {x}
  {
  }

  /** All that can be delivered: everything, or everything before the first failed write. */
  predicate AllDelivered(l: Link) {
    match l.torn
    case None => l.delivered == Written(l)
    case Some(k) => k <= |l.delivered| && k <= |l.log| && l.delivered[..k] == Written(l)[..k]
  }

  /** Nothing is lost: once the writers of a direction are quiet, some further reads deliver all that was written, or all
      that was written before the first failed write. */
  lemma DrainDelivers(env: Env, iv: U64, schedule: seq<Step>, side: Side) returns (more: seq<Step>)
    requires Run(env, iv, schedule).At(Peer(side)) == Up && Run(env, iv, schedule).Out(side).active.Keys == {}
    ensures var l := Run(env, iv, schedule).Out(side); var l' := Run(env, iv, schedule + more).Out(side);
            l'.log == l.log && l'.torn == l.torn && AllDelivered(l')
    decreases 2 * |Run(env, iv, schedule).Out(side).wire| + |Run(env, iv, schedule).Out(side).readable|
  {
    hide DataInv, M.Inv, Peek;
    var s := Run(env, iv, schedule);
    var l := s.Out(side);
    DeliveredIsPrefixOfWritten(env, iv, schedule, side);
    if (Peek(env, l).NeedMore? && l.wire == []) || !Sound(l) {
      NothingBefore(env, iv, schedule, side);
      assert schedule + [] == schedule;
      more := [];
    } else {
      var t := if Peek(env, l).OpenedEvent? then Take(Peer(side), true) else Pull(Peer(side), 1);
      NeedMoreHasRoom(env, l);
      assert (schedule + [t])[..|schedule|] == schedule;
      assert Enabled(env, iv, s, t);
      var rest := DrainDelivers(env, iv, schedule + [t], side);
      more := [t] + rest;
      assert schedule + [t] + rest == schedule + more;
    }
  }

  lemma NothingBefore(env: Env, iv: U64, schedule: seq<Step>, side: Side)
    requires var s := Run(env, iv, schedule); var l := s.Out(side);
             Reading(s, Peer(side)) && l.active.Keys == {} && ((Peek(env, l).NeedMore? && l.wire == []) || !Sound(l))
    ensures AllDelivered(Run(env, iv, schedule).Out(side))
  {
    hide Run, Peek;
    var l := Run(env, iv, schedule).Out(side);
    DeliveredIsPrefixOfWritten(env, iv, schedule, side);
    LinkOfRun(env, iv, schedule, side);
  }

  lemma NeedMoreHasRoom(env: Env, l: Link)
    ensures Peek(env, l).NeedMore? ==> |l.readable| < MAX_FRAME
    ensures Peek(env, l).OpenedEvent? ==> SEALED_HEAD <= Peek(env, l).len <= |l.readable|
  {
    hide Open;
  }
}
