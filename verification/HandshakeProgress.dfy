/** The handshake can complete: a run that brings both ends up with the negotiated counters
    (snova/mux/mux_connection.cc, ServerAuth and ClientAuth). */
module HandshakeProgress {
  import opened Wire
  import opened MuxEvents
  import opened Cipher
  import opened MuxLink
  import opened Handshake
  import M = ChannelMutex

  /** The three steps of an uncontended Write by coroutine 0, with the transport taking all `n` bytes at once. */
  function Writing(side: Side, e: Event, n: nat): seq<Step> {
    [StartWrite(side, 0, e), Push(side, 0, n), FinishWrite(side, 0)]
  }

  /** A read of `n` bytes and the event in it. */
  function Reads(side: Side, n: nat): seq<Step> {
    [Pull(side, n), Take(side, true)]
  }

  /** Nobody is using the writing half. */
  predicate Quiet(l: Link) {
    l.mutex == M.INIT && l.want == map[] && l.active == map[]
  }

  function AfterWrite(l: Link, en: Entry): Link {
    l.(buffer := en.frame, encIv := Succ64(l.encIv), log := l.log + [en], wire := l.wire + en.frame)
  }

  function AfterRead(l: Link, en: Entry): Link {
    l.(wire := [], decIv := Succ64(l.decIv), delivered := l.delivered + [en.event])
  }

  /** The entry that sealing makes. */
  function EntryOf(env: Env, iv: U64, e: Event): Entry
    requires Seal(env.aead, env.pb, iv, e, OUT_SIZE).SealedFrame?
  {
    var s := Seal(env.aead, env.pb, iv, e, OUT_SIZE);
    Entry(iv, s.event, s.frame)
  }

  lemma WholeWrite(env: Env, l: Link, e: Event)
    requires Quiet(l) && Seal(env.aead, env.pb, l.encIv, e, OUT_SIZE).SealedFrame?
    ensures var en := EntryOf(env, l.encIv, e);
            var l1 := MuxLink.StartWrite(env, l, 0, e);
            && l1.active == map[0 := Span(|en.frame|, 0)] && l1.buffer == en.frame
            && var l2 := MuxLink.Push(l1, 0, |en.frame|);
               l2.active == map[0 := Span(|en.frame|, |en.frame|)] && MuxLink.FinishWrite(l2, 0) == AfterWrite(l, en)
  {
    hide Seal;
    var en := EntryOf(env, l.encIv, e);
    assert en.frame[0..|en.frame|] == en.frame;
    var m1 := M.Apply(l.mutex, M.LockEnter(0));
    assert m1.world.inside == {0};
    assert M.Leave(m1, 0) == M.INIT;
  }

  lemma WholeRead(env: Env, l: Link, en: Entry)
    requires WasSealed(env, en) && l.decIv == en.iv && l.readable == [] && l.wire == en.frame
    ensures Peek(env, l).NeedMore?
    ensures var l1 := MuxLink.Pull(l, |en.frame|);
            && Peek(env, l1) == OpenedEvent(en.event, |en.frame|)
            && MuxLink.Take(env, l1) == AfterRead(l, en)
  {
    hide Seal, Open;
    var l1 := MuxLink.Pull(l, |en.frame|);
    assert l1.readable == en.frame && l1.wire == [];
    assert en.frame + [] == en.frame;
    FrontOfStream(env, en, [], en.frame);
    NothingReadable(env, l);
    assert en.frame[|en.frame|..] == [];
  }

  // ---- Runs from a given state ----

  function Continue(env: Env, iv: U64, s: Sys, steps: seq<Step>): Sys
    decreases |steps|
  {
    if steps == [] then s else Continue(env, iv, Apply(env, iv, s, steps[0]), steps[1..])
  }

  lemma {:induction false} RunContinues(env: Env, iv: U64, schedule: seq<Step>, steps: seq<Step>)
    ensures Run(env, iv, schedule + steps) == Continue(env, iv, Run(env, iv, schedule), steps)
    decreases |steps|
  {
    hide Apply;
    if steps == [] {
      assert schedule + steps == schedule;
    } else {
      var t := steps[0];
      assert (schedule + [t])[..|schedule|] == schedule;
      RunContinues(env, iv, schedule + [t], steps[1..]);
      assert schedule + [t] + steps[1..] == schedule + steps;
    }
  }

  lemma ThreeSteps(env: Env, iv: U64, s: Sys, a: Step, b: Step, c: Step)
    ensures Continue(env, iv, s, [a, b, c]) == Apply(env, iv, Apply(env, iv, Apply(env, iv, s, a), b), c)
  {
    hide Apply;
    assert [a, b, c][1..] == [b, c] && [b, c][1..] == [c] && [c][1..] == [];
    TwoSteps(env, iv, Apply(env, iv, s, a), b, c);
  }

  lemma TwoSteps(env: Env, iv: U64, s: Sys, a: Step, b: Step)
    ensures Continue(env, iv, s, [a, b]) == Apply(env, iv, Apply(env, iv, s, a), b)
  {
    hide Apply;
    assert [a, b][1..] == [b] && [b][1..] == [];
    assert Continue(env, iv, Apply(env, iv, s, a), [b]) == Apply(env, iv, Apply(env, iv, s, a), b);
  }

  /** Where an endpoint is after its greeting has been written. */
  function Greeted(s: Sys, side: Side, l: Link, iv: U64): Sys {
    if side.Client? then s.WithOut(side, l).WithPhase(Client, Awaiting)
    else s.WithOut(side, l).WithPhase(Server, Up).UpdateNonce(Server, iv)
  }

  lemma GreetingGoesOut(env: Env, iv: U64, s: Sys, side: Side, e: Event)
    requires Quiet(s.Out(side)) && s.At(side) == Fresh && IsGreeting(side, iv, e.body) && Writable(env, e)
    requires Seal(env.aead, env.pb, s.Out(side).encIv, e, OUT_SIZE).SealedFrame?
    ensures var en := EntryOf(env, s.Out(side).encIv, e);
            Continue(env, iv, s, Writing(side, e, |en.frame|)) == Greeted(s, side, AfterWrite(s.Out(side), en), iv)
  {
    hide Seal, AfterLock, Writable, Peek, Continue, M.Apply, M.Leave;
    var l := s.Out(side);
    var en := EntryOf(env, l.encIv, e);
    var n := |en.frame|;
    WholeWrite(env, l, e);
    FrameNotEmpty(env, l.encIv, e);
    ThreeSteps(env, iv, s, StartWrite(side, 0, e), Push(side, 0, n), FinishWrite(side, 0));
    var l1 := MuxLink.StartWrite(env, l, 0, e);
    var s1 := Apply(env, iv, s, StartWrite(side, 0, e));
    assert s1 == s.WithOut(side, l1).WithPhase(side, Greeting);
    var s2 := Apply(env, iv, s1, Push(side, 0, n));
    assert s2 == s1.WithOut(side, MuxLink.Push(l1, 0, n));
  }

  lemma FrameNotEmpty(env: Env, iv: U64, e: Event)
    requires Seal(env.aead, env.pb, iv, e, OUT_SIZE).SealedFrame?
    ensures 1 <= |EntryOf(env, iv, e).frame| <= OUT_SIZE
  {
    SealSucceedsExactlyWhen(env.aead, env.pb, iv, e);
    hide Seal;
  }

  /** Where an endpoint is after it has read its peer's greeting. */
  function Welcomed(s: Sys, side: Side, l: Link, iv: U64): Sys {
    if side.Server? then s.WithIn(side, l).WithPhase(Server, Fresh)
    else s.WithIn(side, l).WithPhase(Client, Up).UpdateNonce(Client, iv)
  }

  lemma GreetingComesIn(env: Env, iv: U64, s: Sys, side: Side, en: Entry)
    requires s.At(side) == Awaiting && IsGreeting(Peer(side), iv, en.event.body)
    requires WasSealed(env, en) && 1 <= |en.frame| <= OUT_SIZE
    requires var l := s.In(side); l.decIv == en.iv && l.readable == [] && l.wire == en.frame
    ensures Continue(env, iv, s, Reads(side, |en.frame|)) == Welcomed(s, side, AfterRead(s.In(side), en), iv)
  {
    hide WasSealed, Writable, Peek, Continue, MuxLink.Pull, MuxLink.Take;
    var l := s.In(side);
    var n := |en.frame|;
    WholeRead(env, l, en);
    TwoSteps(env, iv, s, Pull(side, n), Take(side, true));
    var s1 := Apply(env, iv, s, Pull(side, n));
    assert s1 == s.WithIn(side, MuxLink.Pull(l, n));
  }

  /** What a greeting is sealed into. */
  lemma GreetingSeals(env: Env, iv: U64, e: Event)
    requires e.Typed() && e.body.Protobuf() && env.pb.encode(e.body).Some?
    ensures Writable(env, e) && Seal(env.aead, env.pb, iv, e, OUT_SIZE).SealedFrame?
    ensures var en := EntryOf(env, iv, e);
            WasSealed(env, en) && 1 <= |en.frame| <= OUT_SIZE && Stamped(en.event, e)
  {
    SealSucceedsExactlyWhen(env.aead, env.pb, iv, e);
    SealedIsEntry(env, iv, e);
    FrameNotEmpty(env, iv, e);
  }

  /** If the two greetings can be encoded, a run brings both ends up: all four counters stand at the negotiated value, and
      each end has read the other's greeting. */
  lemma HandshakeCompletes(env: Env, iv: U64, req: Event, rsp: Event) returns (schedule: seq<Step>)
    requires req.Typed() && req.body.AuthRequest? && env.pb.encode(req.body).Some?
    requires rsp.Typed() && rsp.body == AuthResponse(true, iv) && env.pb.encode(rsp.body).Some?
    ensures var s := Run(env, iv, schedule);
            && s.client == s.server == Up
            && s.up.encIv == s.up.decIv == s.down.encIv == s.down.decIv == iv
            && |s.up.delivered| == |s.down.delivered| == 1
            && Stamped(s.up.delivered[0], req) && Stamped(s.down.delivered[0], rsp)
  {
    hide Continue, Writable, WasSealed, Seal, Apply, Run, Writing, Reads, Stamped;
    GreetingSeals(env, DEFAULT_IV, req);
    GreetingSeals(env, DEFAULT_IV, rsp);
    var a, b := EntryOf(env, DEFAULT_IV, req), EntryOf(env, DEFAULT_IV, rsp);
    assert Stamped(a.event, req) && Stamped(b.event, rsp);
    StampedBody(a.event, req);
    StampedBody(b.event, rsp);
    assert [] + a.frame == a.frame && [] + b.frame == b.frame;

    var s1 := Greeted(START, Client, AfterWrite(START.up, a), iv);
    GreetingGoesOut(env, iv, START, Client, req);
    var s2 := Welcomed(s1, Server, AfterRead(s1.up, a), iv);
    GreetingComesIn(env, iv, s1, Server, a);
    var s3 := Greeted(s2, Server, AfterWrite(s2.down, b), iv);
    GreetingGoesOut(env, iv, s2, Server, rsp);
    var s4 := Welcomed(s3, Client, AfterRead(s3.down, b), iv);
    GreetingComesIn(env, iv, s3, Client, b);

    var r1 := Writing(Client, req, |a.frame|);
    var r2 := r1 + Reads(Server, |a.frame|);
    var r3 := r2 + Writing(Server, rsp, |b.frame|);
    schedule := r3 + Reads(Client, |b.frame|);
    RunStart(env, iv);
    assert [] + r1 == r1;
    RunContinues(env, iv, [], r1);
    RunContinues(env, iv, r1, Reads(Server, |a.frame|));
    RunContinues(env, iv, r2, Writing(Server, rsp, |b.frame|));
    RunContinues(env, iv, r3, Reads(Client, |b.frame|));
    assert Run(env, iv, schedule) == s4;
  }

  // ---- Clients that are refused ----

  /** What the reading of a greeting decides, in any state: the server goes on exactly if it is an authentication request
      and its sender's role is accepted; the client comes up, on the counter it is told, exactly if it is a positive
      answer. Otherwise the endpoint gives up and keeps its counter for sealing. */
  lemma GreetingDecides(env: Env, iv: U64, s: Sys, side: Side, accept: bool)
    requires s.At(side) == Awaiting && Peek(env, s.In(side)).OpenedEvent?
    ensures var s' := Apply(env, iv, s, Take(side, accept)); var body := Peek(env, s.In(side)).event.body;
            if side.Server? then
              && s'.server == (if accept && body.AuthRequest? then Fresh else Failed) && s'.down == s.down
            else if body.AuthResponse? && body.success then
              s'.client == Up && s'.up.encIv == body.iv && s'.down.decIv == body.iv
            else s'.client == Failed && s'.up == s.up
  {
    hide Peek;
  }

  lemma FailedStep(env: Env, iv: U64, s: Sys, t: Step, side: Side)
    requires Handshake.Inv(env, iv, s) && s.At(side) == Failed
    ensures var s' := Apply(env, iv, s, t); s'.At(side) == Failed && s'.Out(side).log == s.Out(side).log
  {
    FailedPhase(env, iv, s, t, side);
    NobodyWaits(env, iv, s, side);
    LogAndWantKept(env, iv, s, t, side);
    hide Apply, Handshake.Inv;
  }

  lemma NobodyWaits(env: Env, iv: U64, s: Sys, side: Side)
    requires Handshake.Inv(env, iv, s) && s.At(side) == Failed
    ensures s.Out(side).mutex.world.woken == {}
  {
    hide DataInv, M.OnePlace, M.ChannelOk;
    var l := s.Out(side);
    assert l.mutex.waitCount == 0 && |l.mutex.world.woken| == 0;
  }

  lemma FailedPhase(env: Env, iv: U64, s: Sys, t: Step, side: Side)
    requires s.At(side) == Failed
    ensures Apply(env, iv, s, t).At(side) == Failed
  {
    hide Peek, Writable, MuxLink.StartWrite, MuxLink.ResumeWrite, MuxLink.Push, MuxLink.FinishWrite, MuxLink.FailWrite,
      MuxLink.ResumeUnlock, MuxLink.Pull, MuxLink.Take;
  }

  /** An endpoint that has given up never comes up again, and writes nothing more. */
  lemma {:induction false} FailedForever(env: Env, iv: U64, s: Sys, more: seq<Step>, side: Side)
    requires Handshake.Inv(env, iv, s) && s.At(side) == Failed
    ensures var s' := Continue(env, iv, s, more);
            Handshake.Inv(env, iv, s') && s'.At(side) == Failed && s'.Out(side).log == s.Out(side).log
    decreases |more|
  {
    hide Handshake.Inv, Apply;
    if more != [] {
      StepKeepsInv(env, iv, s, more[0]);
      FailedStep(env, iv, s, more[0], side);
      FailedForever(env, iv, Apply(env, iv, s, more[0]), more[1..], side);
    }
  }

  /** A client whose role the server refuses is shut out: in every continuation the server has given up without a word, and
      the client never comes up. */
  lemma RefusedIsShutOut(env: Env, iv: U64, schedule: seq<Step>, more: seq<Step>)
    requires var s := Run(env, iv, schedule); s.server == Awaiting && Enabled(env, iv, s, Take(Server, false))
    ensures var s := Run(env, iv, schedule + ([Take(Server, false)] + more));
            s.server == Failed && s.down.log == [] && s.client != Up
  {
    hide Apply, Handshake.Inv, Continue, Run, Peek;
    var s := Run(env, iv, schedule);
    EveryRunKeepsInv(env, iv, schedule);
    RunContinues(env, iv, schedule, [Take(Server, false)] + more);
    ContinueStep(env, iv, s, Take(Server, false), more);
    StepKeepsInv(env, iv, s, Take(Server, false));
    GreetingDecides(env, iv, s, Server, false);
    var s1 := Apply(env, iv, s, Take(Server, false));
    SilentSoFar(env, iv, s);
    FailedForever(env, iv, s1, more, Server);
    NoAnswerNoClient(env, iv, Continue(env, iv, s1, more));
  }

  lemma ContinueStep(env: Env, iv: U64, s: Sys, t: Step, more: seq<Step>)
    ensures Continue(env, iv, s, [t] + more) == Continue(env, iv, Apply(env, iv, s, t), more)
  {
    hide Apply;
    assert ([t] + more)[1..] == more;
  }

  lemma SilentSoFar(env: Env, iv: U64, s: Sys)
    requires Handshake.Inv(env, iv, s) && s.server == Awaiting
    ensures s.down.log == []
  {
    hide MuxLink.Inv;
  }

  lemma NoAnswerNoClient(env: Env, iv: U64, s: Sys)
    requires Handshake.Inv(env, iv, s) && s.down.log == []
    ensures s.client != Up
  {
  }

  /** In every run, an end that is up has read the other's greeting: the server an authentication request, the client a
      positive answer with the counter both use; and the server is past its check only if it has accepted. */
  lemma ReadyMeansGreeted(env: Env, iv: U64, schedule: seq<Step>)
    ensures var s := Run(env, iv, schedule);
            && (s.server == Up ==> s.up.delivered != [] && s.up.delivered[0].body.AuthRequest?)
            && (s.client == Up ==> s.down.delivered != [] && s.down.delivered[0].body == AuthResponse(true, iv))
            && (s.server != Awaiting && s.server != Failed ==> Take(Server, true) in schedule)
  {
    EveryRunKeepsInv(env, iv, schedule);
    AcceptedBefore(env, iv, schedule);
    hide MuxLink.Inv, Run;
  }

  lemma {:induction false} AcceptedBefore(env: Env, iv: U64, schedule: seq<Step>)
    ensures var s := Run(env, iv, schedule); s.server == Awaiting || s.server == Failed || Take(Server, true) in schedule
  {
    hide Peek, Writable, MuxLink.StartWrite, MuxLink.ResumeWrite, MuxLink.Push, MuxLink.FinishWrite, MuxLink.FailWrite,
      MuxLink.ResumeUnlock, MuxLink.Pull, MuxLink.Take;
    if schedule != [] {
      var n := |schedule| - 1;
      AcceptedBefore(env, iv, schedule[..n]);
      assert schedule[n] in schedule;
    }
  }

  lemma StampedBody(e': Event, e: Event)
    requires Stamped(e', e)
    ensures e'.body == e.body
  {
  }

  lemma RunStart(env: Env, iv: U64)
    ensures Run(env, iv, []) == START
  {
  }
}
