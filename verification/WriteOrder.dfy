/** From the calls of Write to the frames on the connection: every call is sealed once, each coroutine's calls in its own
    order; and so from the Write calls of a stream to the Reads of its peer
    (snova/mux/mux_connection.cc, Write; snova/mux/mux_stream.cc, Write and Read). */
module WriteOrder {
  import opened Wire
  import opened MuxEvents
  import opened Cipher
  import opened MuxLink
  import H = Handshake
  import S = StreamDelivery
  import M = ChannelMutex

  /** An event as the caller of Write sees it: Encrypt has not yet filled in the length. */
  function Unstamped(e: Event): Event {
    e.(head := e.head.(len := 0))
  }

  /** Write can seal the event; this does not depend on the counter, see SealableUnderAnyCounter. */
  predicate Sealable(env: Env, e: Event) {
    Seal(env.aead, env.pb, DEFAULT_IV, e, OUT_SIZE).SealedFrame?
  }

  lemma SealableUnderAnyCounter(env: Env, iv: U64, e: Event)
    ensures Sealable(env, e) <==> Seal(env.aead, env.pb, iv, e, OUT_SIZE).SealedFrame?
    ensures Sealable(env, e) ==> Unstamped(Seal(env.aead, env.pb, iv, e, OUT_SIZE).event) == Unstamped(e)
  {
    SealSucceedsExactlyWhen(env.aead, env.pb, iv, e);
    SealSucceedsExactlyWhen(env.aead, env.pb, DEFAULT_IV, e);
  }

  // ---- What was asked and what was sealed ----

  /** The sealable events for which coroutine `id` has called Write at `side`, in the order of the calls. */
  function Asked(env: Env, iv: U64, schedule: seq<H.Step>, side: H.Side, id: Id): seq<Event> {
    if schedule == [] then []
    else
      var n := |schedule| - 1;
      Asked(env, iv, schedule[..n], side, id) + AskedNow(env, iv, H.Run(env, iv, schedule[..n]), schedule[n], side, id)
  }

  function AskedNow(env: Env, iv: U64, s: H.Sys, t: H.Step, side: H.Side, id: Id): seq<Event> {
    if H.Enabled(env, iv, s, t) && t.StartWrite? && t.side == side && t.id == id && Sealable(env, t.e)
    then [Unstamped(t.e)] else []
  }

  /** The events that were sealed by a step of coroutine `id`, in the order of the log. */
  function SealedBy(env: Env, iv: U64, schedule: seq<H.Step>, side: H.Side, id: Id): seq<Event> {
    if schedule == [] then []
    else
      var n := |schedule| - 1;
      SealedBy(env, iv, schedule[..n], side, id) + SealedNow(env, iv, H.Run(env, iv, schedule[..n]), schedule[n], side, id)
  }

  function SealedNow(env: Env, iv: U64, s: H.Sys, t: H.Step, side: H.Side, id: Id): seq<Event> {
    var l, l' := s.Out(side), H.Apply(env, iv, s, t).Out(side);
    if |l'.log| > |l.log| && (t.StartWrite? || t.ResumeWrite?) && t.id == id
    then [Unstamped(l'.log[|l'.log| - 1].event)] else []
  }

  /** What coroutine `id` is still waiting to write. */
  function Pending(env: Env, l: Link, id: Id): seq<Event> {
    if id in l.want && Sealable(env, l.want[id]) then [Unstamped(l.want[id])] else []
  }

  /** Getting past Lock moves the event of the coroutine from pending to sealed, and no other. */
  lemma LockEffect(env: Env, l: Link, id: Id, x: Id)
    requires id in l.want
    ensures var l' := AfterLock(env, l, id);
            && |l.log| <= |l'.log| <= |l.log| + 1
            && Pending(env, l, x) ==
               (if |l'.log| > |l.log| && x == id then [Unstamped(l'.log[|l'.log| - 1].event)] else []) + Pending(env, l', x)
  {
    hide Seal, Sealable, Unstamped;
    SealableUnderAnyCounter(env, l.encIv, l.want[id]);
  }

  lemma StepEffect(env: Env, iv: U64, s: H.Sys, t: H.Step, side: H.Side, id: Id)
    requires MuxLink.Inv(env, s.Out(side))
    ensures var l, l' := s.Out(side), H.Apply(env, iv, s, t).Out(side);
            Pending(env, l, id) + AskedNow(env, iv, s, t, side, id) ==
            SealedNow(env, iv, s, t, side, id) + Pending(env, l', id)
  {
    hide MuxLink.Inv, AfterLock, Peek, Writable, Sealable, Unstamped;
    var l := s.Out(side);
    if H.Enabled(env, iv, s, t) && t.side == side {
      match t
      case StartWrite(_, x, e) =>
        OutsideWantsNothing(env, l, x);
        LockEffect(env, l.(mutex := M.Apply(l.mutex, M.LockEnter(x)), want := l.want[x := e]), x, id);
      case ResumeWrite(_, x) =>
        LockEffect(env, l.(mutex := M.Apply(l.mutex, M.LockResume(x))), x, id);
      case _ =>
    }
  }

  lemma OutsideWantsNothing(env: Env, l: Link, id: Id)
    requires MuxLink.Inv(env, l) && M.Outside(l.mutex.world, id)
    ensures id !in l.want
  {
  }

  /** Conservation: in every run, what a coroutine has asked to write is what was sealed for it, in the same order and once
      each, followed by the one event it may be waiting to write. */
  lemma {:induction false} EveryWriteIsSealedOnce(env: Env, iv: U64, schedule: seq<H.Step>, side: H.Side, id: Id)
    ensures Asked(env, iv, schedule, side, id) ==
            SealedBy(env, iv, schedule, side, id) + Pending(env, H.Run(env, iv, schedule).Out(side), id)
  {
    hide AskedNow, SealedNow, Pending, H.Apply, MuxLink.Inv;
    if schedule == [] {
      NothingPending(env, iv, side, id);
    } else {
      var n := |schedule| - 1;
      var s, t := H.Run(env, iv, schedule[..n]), schedule[n];
      EveryWriteIsSealedOnce(env, iv, schedule[..n], side, id);
      H.LinkOfRun(env, iv, schedule[..n], side);
      StepEffect(env, iv, s, t, side, id);
      Regroup(SealedBy(env, iv, schedule[..n], side, id), Pending(env, s.Out(side), id), AskedNow(env, iv, s, t, side, id),
              SealedNow(env, iv, s, t, side, id), Pending(env, H.Apply(env, iv, s, t).Out(side), id));
    }
  }

  lemma NothingPending(env: Env, iv: U64, side: H.Side, id: Id)
    ensures Pending(env, H.Run(env, iv, []).Out(side), id) == []
  {
  }

  lemma Regroup<T>(a: seq<T>, b: seq<T>, c: seq<T>, d: seq<T>, e: seq<T>)
    requires b + c == d + e
    ensures a + b + c == a + d + e
  {
    assert a + b + c == a + (b + c) == a + (d + e);
  }

  // ---- The writes of one stream ----

  function ChunkOf(e: Event, sid: S.Sid): seq<S.Chunk> {
    if e.body.StreamChunk? && e.head.sid == sid then [e.body.data] else []
  }

  /** The chunk of an event that Write seals; the longer ones among the writable events do not fit its buffer. */
  function WriteOf(e: Event, sid: S.Sid): seq<S.Chunk> {
    if e.body.StreamChunk? && |e.body.data| <= MAX_BODY then ChunkOf(e, sid) else []
  }

  /** The chunks for which Write was called on stream `sid`, in the order of the calls. */
  function StreamWrites(env: Env, iv: U64, schedule: seq<H.Step>, side: H.Side, sid: S.Sid): seq<S.Chunk> {
    if schedule == [] then []
    else
      var n := |schedule| - 1;
      StreamWrites(env, iv, schedule[..n], side, sid) +
      StreamWritesNow(env, iv, H.Run(env, iv, schedule[..n]), schedule[n], side, sid)
  }

  function StreamWritesNow(env: Env, iv: U64, s: H.Sys, t: H.Step, side: H.Side, sid: S.Sid): seq<S.Chunk> {
    if H.Enabled(env, iv, s, t) && t.StartWrite? && t.side == side then WriteOf(t.e, sid) else []
  }

  /** One coroutine does all the writing of the stream. */
  predicate OneWriterOf(schedule: seq<H.Step>, side: H.Side, sid: S.Sid, id: Id) {
    forall t <- schedule :: t.StartWrite? && t.side == side && WriteOf(t.e, sid) != [] ==> t.id == id
  }

  function PendingChunk(l: Link, id: Id, sid: S.Sid): seq<S.Chunk> {
    if id in l.want then WriteOf(l.want[id], sid) else []
  }

  predicate OnlyWants(l: Link, id: Id, sid: S.Sid) {
    forall x <- l.want :: x != id ==> WriteOf(l.want[x], sid) == []
  }

  /** A chunk that the peer accepts is always sealed when its coroutine gets in. */
  lemma ChunkEffect(env: Env, l: Link, id: Id, sid: S.Sid)
    requires id in l.want && Writable(env, l.want[id])
    ensures var l' := AfterLock(env, l, id);
            || (l'.log == l.log && l'.want == l.want)
            || (l'.log == l.log && l'.want == l.want - {id} && WriteOf(l.want[id], sid) == [])
            || (l'.want == l.want - {id} && |l'.log| == |l.log| + 1 && l'.log[..|l.log|] == l.log &&
                ChunkOf(l'.log[|l.log|].event, sid) == WriteOf(l.want[id], sid))
  {
    SealSucceedsExactlyWhen(env.aead, env.pb, l.encIv, l.want[id]);
    hide Seal;
  }

  lemma WrittenGrows(l: Link, l': Link, sid: S.Sid)
    requires |l'.log| == |l.log| + 1 && l'.log[..|l.log|] == l.log
    ensures S.Chunks(H.Written(l'), sid) == S.Chunks(H.Written(l), sid) + ChunkOf(l'.log[|l.log|].event, sid)
  {
    hide S.Chunks;
    S.ChunksAppend(H.Written(l), l'.log[|l.log|].event, sid);
    assert H.Written(l') == H.Written(l) + [l'.log[|l.log|].event];
  }

  lemma AfterLockOnStream(env: Env, l: Link, x: Id, id: Id, sid: S.Sid)
    requires x in l.want && Writable(env, l.want[x]) && OnlyWants(l, id, sid)
    ensures var l' := AfterLock(env, l, x);
            && OnlyWants(l', id, sid)
            && S.Chunks(H.Written(l), sid) + PendingChunk(l, id, sid) ==
               S.Chunks(H.Written(l'), sid) + PendingChunk(l', id, sid)
  {
    hide AfterLock, S.Chunks, H.Written, Writable, ChunkOf, WriteOf;
    var l' := AfterLock(env, l, x);
    ChunkEffect(env, l, x, sid);
    if l'.log == l.log {
      SameWritten(l, l');
    } else {
      WrittenGrows(l, l', sid);
    }
  }

  lemma SameWritten(l: Link, l': Link)
    requires l'.log == l.log
    ensures H.Written(l') == H.Written(l)
  {
  }

  lemma StepOnStream(env: Env, iv: U64, s: H.Sys, t: H.Step, side: H.Side, sid: S.Sid, id: Id)
    requires MuxLink.Inv(env, s.Out(side)) && OnlyWants(s.Out(side), id, sid)
    requires OneWriterOf([t], side, sid, id)
    ensures var l, l' := s.Out(side), H.Apply(env, iv, s, t).Out(side);
            && OnlyWants(l', id, sid)
            && S.Chunks(H.Written(l), sid) + PendingChunk(l, id, sid) + StreamWritesNow(env, iv, s, t, side, sid) ==
               S.Chunks(H.Written(l'), sid) + PendingChunk(l', id, sid)
  {
    hide DataInv, M.Inv, AfterLock, Peek, Writable, S.Chunks, H.Written, ChunkOf, WriteOf;
    var l, l' := s.Out(side), H.Apply(env, iv, s, t).Out(side);
    assert t in [t];
    if H.Enabled(env, iv, s, t) && t.side == side && (t.StartWrite? || t.ResumeWrite?) {
      match t
      case StartWrite(_, x, e) =>
        OutsideWantsNothing(env, l, x);
        var l1 := l.(mutex := M.Apply(l.mutex, M.LockEnter(x)), want := l.want[x := e]);
        SameWritten(l, l1);
        AfterLockOnStream(env, l1, x, id, sid);
      case ResumeWrite(_, x) =>
        var l1 := l.(mutex := M.Apply(l.mutex, M.LockResume(x)));
        SameWritten(l, l1);
        AfterLockOnStream(env, l1, x, id, sid);
    } else {
      H.LogAndWantKept(env, iv, s, t, side);
      SameWritten(l, l');
    }
  }

  /** The chunks of a stream on the connection are those its writer asked for, in order, up to one still waiting. */
  lemma {:induction false} StreamWritesInOrder(env: Env, iv: U64, schedule: seq<H.Step>, side: H.Side, sid: S.Sid, id: Id)
    requires OneWriterOf(schedule, side, sid, id)
    ensures var l := H.Run(env, iv, schedule).Out(side);
            && OnlyWants(l, id, sid)
            && StreamWrites(env, iv, schedule, side, sid) == S.Chunks(H.Written(l), sid) + PendingChunk(l, id, sid)
  {
    hide StreamWritesNow, H.Apply, MuxLink.Inv, S.Chunks, H.Written, ChunkOf, WriteOf;
    if schedule == [] {
      NothingWritten(env, iv, side, sid, id);
    } else {
      var n := |schedule| - 1;
      var s, t := H.Run(env, iv, schedule[..n]), schedule[n];
      StreamWritesInOrder(env, iv, schedule[..n], side, sid, id);
      H.LinkOfRun(env, iv, schedule[..n], side);
      StepOnStream(env, iv, s, t, side, sid, id);
    }
  }

  lemma NothingWritten(env: Env, iv: U64, side: H.Side, sid: S.Sid, id: Id)
    ensures var l := H.Run(env, iv, []).Out(side);
            OnlyWants(l, id, sid) && S.Chunks(H.Written(l), sid) == [] && PendingChunk(l, id, sid) == []
  {
  }

  /** End to end: however the coroutines of both ends interleave and the bytes are cut, what the Reads of a stream have
      returned are the chunks for which its peer called Write, in the order of those calls, without gap and from the
      first one dispatched after registration on. */
  lemma ReadsFollowWrites(env: Env, iv: U64, connection: seq<H.Step>, side: H.Side, id: Id,
                          schedule: seq<S.Step>, sid: S.Sid)
    requires OneWriterOf(connection, side, sid, id)
    requires var l := H.Run(env, iv, connection).Out(side); var s := S.Run(schedule);
             s.taken <= |s.written| && s.written[..s.taken] == l.delivered && H.BeforeFailure(l)
    requires sid in S.Run(schedule).streams
    ensures var writes := StreamWrites(env, iv, connection, side, sid); var st := S.Run(schedule).streams[sid];
            st.missed <= |writes| && st.got <= writes[st.missed..]
  {
    hide S.Chunks, S.Run, H.Run;
    S.ReadsArePrefixOfPeerWrites(env, iv, connection, side, schedule, sid);
    StreamWritesInOrder(env, iv, connection, side, sid, id);
  }
}
