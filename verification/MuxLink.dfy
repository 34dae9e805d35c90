/** One direction of a mux connection: any number of writer coroutines that share a mutex, a counter and a write
    buffer, the bytes under way, and the reader at the other end (snova/mux/mux_connection.cc, Write and ReadEvent). */
module MuxLink {
  import opened Wire
  import opened MuxEvents
  import opened Cipher
  import M = ChannelMutex

  type Id = M.Id

  datatype Env = Env(aead: Aead, pb: Codec)

  /** A frame that was sealed: its counter, its event with the length field set, and its bytes. */
  datatype Entry = Entry(iv: U64, event: Event, frame: Bytes)

  /** An AsyncWrite under way: `sent` of the first `len` bytes of the write buffer. */
  datatype Span = Span(len: nat, sent: nat)

  /** `log` and `delivered` record the events in the order they were sealed and taken; `torn` is the number of the first
      frame whose write failed, if any did: an unknown part of it is on the wire, and other frames may follow. */
  datatype Link = Link(
    mutex: M.State, want: map<Id, Event>, buffer: Bytes, active: map<Id, Span>, encIv: U64, log: seq<Entry>,
    wire: Bytes, readable: Bytes, decIv: U64, delivered: seq<Event>, torn: Option<nat>)

  const INIT: Link := Link(M.INIT, map[], [], map[], DEFAULT_IV, [], [], [], DEFAULT_IV, [], None)

  // ---- Steps ----

  /** From the return of Lock to the first suspension: Encrypt into the shared buffer and begin to write it out, or give
      the mutex back. */
  function EncryptAndWrite(env: Env, l: Link, id: Id): Link
    requires id in l.want
  {
    var rest := l.want - {id};
    match Seal(env.aead, env.pb, l.encIv, l.want[id], OUT_SIZE)
    case SealedFrame(frame, e) =>
      l.(want := rest, buffer := frame, active := l.active[id := Span(|frame|, 0)], encIv := Succ64(l.encIv),
         log := l.log + [Entry(l.encIv, e, frame)])
    case SealError(_, _) => l.(want := rest, mutex := M.Leave(l.mutex, id))
  }

  /** After a step of Lock: a coroutine that got in goes on, one that waits has suspended. */
  function AfterLock(env: Env, l: Link, id: Id): Link
    requires id in l.want
  {
    if id in l.mutex.world.inside then EncryptAndWrite(env, l, id) else l
  }

  function StartWrite(env: Env, l: Link, id: Id, e: Event): Link {
    AfterLock(env, l.(mutex := M.Apply(l.mutex, M.LockEnter(id)), want := l.want[id := e]), id)
  }

  function ResumeWrite(env: Env, l: Link, id: Id): Link
    requires id in l.want
  {
    AfterLock(env, l.(mutex := M.Apply(l.mutex, M.LockResume(id))), id)
  }

  /** The transport accepts `k` more bytes from the shared write buffer. */
  function Push(l: Link, id: Id, k: nat): Link
    requires id in l.active && l.active[id].sent + k <= l.active[id].len <= |l.buffer|
  {
    var at := l.active[id].sent;
    l.(wire := l.wire + l.buffer[at..at + k], active := l.active[id := l.active[id].(sent := at + k)])
  }

  function FinishWrite(l: Link, id: Id): Link {
    l.(active := l.active - {id}, mutex := M.Leave(l.mutex, id))
  }

  /** AsyncWrite ends with an error, wherever it was: Write unlocks all the same, and the connection stays in use. */
  function FailWrite(l: Link, id: Id): Link {
    l.(active := l.active - {id}, mutex := M.Leave(l.mutex, id),
       torn := if l.torn.None? && l.log != [] then Some(|l.log| - 1) else l.torn)
  }

  function ResumeUnlock(l: Link, id: Id): Link {
    l.(mutex := M.Apply(l.mutex, M.UnlockResume(id)))
  }

  /** A read of `k` bytes behind the readable ones. */
  function Pull(l: Link, k: nat): Link
    requires k <= |l.wire|
  {
    l.(readable := l.readable + l.wire[..k], wire := l.wire[k..])
  }

  function Peek(env: Env, l: Link): (r: Opened)
    ensures r.OpenedEvent? ==> SEALED_HEAD <= r.len <= |l.readable|
  {
    Open(env.aead, env.pb, l.decIv, l.readable)
  }

  /** ReadEvent returns the event at the front. */
  function Take(env: Env, l: Link): Link
    requires Peek(env, l).OpenedEvent?
  {
    var r := Peek(env, l);
    l.(readable := l.readable[r.len..], decIv := Succ64(l.decIv), delivered := l.delivered + [r.event])
  }

  // ---- Frames ----

  function Frames(es: seq<Entry>): Bytes {
    if es == [] then [] else es[0].frame + Frames(es[1..])
  }

  /** Events that the peer accepts if they can be sealed at all, see RoundTripExactlyWhen. */
  predicate Writable(env: Env, e: Event) {
    e.Typed() && |BodyOf(env.pb, e)| <= MAX_BODY
  }

  predicate WasSealed(env: Env, en: Entry) {
    Writable(env, en.event) && Seal(env.aead, env.pb, en.iv, en.event, OUT_SIZE) == SealedFrame(en.frame, en.event)
  }

  lemma Associate(a: Bytes, b: Bytes, c: Bytes)
    ensures a + (b + c) == a + b + c
  {
  }

  lemma {:induction false} FramesAppend(es: seq<Entry>, en: Entry)
    ensures Frames(es + [en]) == Frames(es) + en.frame
  {
    if es == [] {
      assert es + [en] == [en] && [en][1..] == [];
    } else {
      FramesAppend(es[1..], en);
      assert (es + [en])[1..] == es[1..] + [en] && (es + [en])[0] == es[0];
      Associate(es[0].frame, Frames(es[1..]), en.frame);
    }
  }

  /** Sealing an event makes an entry: sealing again the event it returns makes the same frame. */
  lemma SealedIsEntry(env: Env, iv: U64, e: Event)
    requires Writable(env, e) && Seal(env.aead, env.pb, iv, e, OUT_SIZE).SealedFrame?
    ensures var s := Seal(env.aead, env.pb, iv, e, OUT_SIZE); WasSealed(env, Entry(iv, s.event, s.frame))
  {
    SealSucceedsExactlyWhen(env.aead, env.pb, iv, e);
    SealSucceedsExactlyWhen(env.aead, env.pb, iv, Seal(env.aead, env.pb, iv, e, OUT_SIZE).event);
  }

  /** What a reader sees of a frame followed by `rest`, of which the bytes `r` have arrived. */
  lemma FrontOfStream(env: Env, en: Entry, rest: Bytes, r: Bytes)
    requires WasSealed(env, en) && r <= en.frame + rest
    ensures Open(env.aead, env.pb, en.iv, r) ==
            if |en.frame| <= |r| then OpenedEvent(en.event, |en.frame|) else NeedMore
  {
    var f := en.frame;
    if |f| <= |r| {
      assert r == f + r[|f|..];
      SealThenOpen(env.aead, env.pb, en.iv, en.event, r[|f|..]);
    } else {
      assert r == f[..|r|];
      StrictPrefixNeedsMore(env.aead, env.pb, en.iv, en.event, |r|);
    }
  }

  // ---- The writers: mutex, waiting events, spans being written ----

  function Waiting(w: M.World): set<Id> {
    M.Members(w.receivers) + w.woken
  }

  /** Exactly the coroutines inside the mutex are writing, exactly the waiting ones have an event to write. */
  predicate WritersInv(env: Env, l: Link) {
    && M.Inv(l.mutex) && l.mutex.world.open
    && l.active.Keys == l.mutex.world.inside
    && l.want.Keys == Waiting(l.mutex.world)
    && (forall id <- l.want :: Writable(env, l.want[id]))
  }

  lemma OneWriter(env: Env, l: Link, id: Id)
    requires WritersInv(env, l) && id in l.active
    ensures l.active.Keys == {id}
  {
    M.OnlyMember(l.active.Keys, id);
  }

  /** A coroutine that has tried to lock either waits, with the same coroutines inside as before, or is alone inside;
      `waiting` are the others that wait. */
  predicate LockOutcome(s: M.State, inside: set<Id>, waiting: set<Id>, id: Id) {
    && M.Inv(s) && s.world.open && id !in waiting
    && (|| (id !in s.world.inside && s.world.inside == inside && Waiting(s.world) == waiting + {id})
        || (inside == {} && s.world.inside == {id} && Waiting(s.world) == waiting))
  }

  /** What a receive does to the waiters, and that it lets nobody in. */
  lemma ReceiveWaiting(w: M.World, id: Id)
    requires w.open
    ensures Waiting(M.Receive(w, id)) == Waiting(w) + {id}
    ensures M.Receive(w, id).inside == w.inside && M.Receive(w, id).open
  {
    assert M.Members(w.receivers + [id]) == M.Members(w.receivers) + {id};
  }

  lemma LockLoopOutcome(s: M.State, id: Id)
    requires s.world.open && id !in s.world.inside && id !in Waiting(s.world)
    requires |s.world.inside| == if s.locked then 1 else 0
    requires M.Inv(M.LockLoop(s, id))
    ensures LockOutcome(M.LockLoop(s, id), s.world.inside, Waiting(s.world), id)
  {
    if s.locked {
      ReceiveWaiting(s.world, id);
    } else {
      assert s.world.inside == {};
    }
  }

  lemma LockEnterOutcome(s: M.State, id: Id)
    requires M.Inv(s) && s.world.open && M.Outside(s.world, id)
    ensures LockOutcome(M.Apply(s, M.LockEnter(id)), s.world.inside, Waiting(s.world), id)
  {
    M.LockLoopKeepsInv(s, id);
    LockLoopOutcome(s, id);
  }

  lemma LockResumeOutcome(s: M.State, id: Id)
    requires M.Inv(s) && s.world.open && id in s.world.woken
    ensures LockOutcome(M.Apply(s, M.LockResume(id)), s.world.inside, Waiting(s.world) - {id}, id)
  {
    M.LockResumeKeepsInv(s, id);
    var s0 := M.State(s.locked, s.waitCount - 1, s.world.(woken := s.world.woken - {id}));
    WaitingWithout(s.world, id);
    LockLoopOutcome(s0, id);
  }

  lemma WaitingWithout(w: M.World, id: Id)
    requires M.OnePlace(w) && id in w.woken
    ensures Waiting(w.(woken := w.woken - {id})) == Waiting(w) - {id} && id !in w.inside
  {
    assert id !in M.Members(w.receivers);
  }

  /** Unlock moves at most one coroutine, from parked to woken. */
  lemma LeaveKeepsWaiting(s: M.State, id: Id)
    requires M.Inv(s) && s.world.open && id in s.world.inside
    ensures M.Inv(M.Leave(s, id)) && M.Leave(s, id).world.open && M.Leave(s, id).world.inside == {}
    ensures s.world.inside == {id}
    ensures Waiting(M.Leave(s, id).world) == Waiting(s.world)
  {
    hide M.Inv, M.OnePlace;
    M.LeaveKeepsInv(s, id);
    var q := s.world.receivers;
    if s.waitCount > 0 && q != [] {
      assert M.Members(q) == {q[0]} + M.Members(q[1..]);
    }
  }

  /** A coroutine alone inside begins to write, or leaves at once. */
  lemma EncryptKeepsWriters(env: Env, l: Link, id: Id)
    requires id in l.want && l.active == map[]
    requires M.Inv(l.mutex) && l.mutex.world.open && l.mutex.world.inside == {id}
    requires Waiting(l.mutex.world) == l.want.Keys - {id}
    requires forall x <- l.want :: Writable(env, l.want[x])
    ensures WritersInv(env, EncryptAndWrite(env, l, id))
  {
    hide M.Inv, Writable, Seal;
    var l' := EncryptAndWrite(env, l, id);
    assert l'.want.Keys == l.want.Keys - {id};
    LeaveKeepsWaiting(l.mutex, id);
    if Seal(env.aead, env.pb, l.encIv, l.want[id], OUT_SIZE).SealedFrame? {
      assert l'.active.Keys == {id} && l'.mutex == l.mutex;
    } else {
      assert l'.active.Keys == {} && l'.mutex == M.Leave(l.mutex, id);
    }
  }

  /** `l` is the link before the coroutine tried to lock, `l1` after. Nobody is writing when it gets in. */
  lemma AfterLockKeepsWriters(env: Env, l: Link, l1: Link, id: Id)
    requires WritersInv(env, l) && l1 == l.(mutex := l1.mutex, want := l1.want)
    requires id in l1.want && (forall x <- l1.want :: Writable(env, l1.want[x]))
    requires LockOutcome(l1.mutex, l.mutex.world.inside, l1.want.Keys - {id}, id)
    ensures WritersInv(env, AfterLock(env, l1, id))
    ensures id in l1.mutex.world.inside ==> l.active == map[]
  {
    hide M.Inv, Writable, EncryptAndWrite;
    if id in l1.mutex.world.inside {
      assert l.active.Keys == {};
      assert l.active == map[];
      EncryptKeepsWriters(env, l1, id);
    } else {
      assert l1.want.Keys == (l1.want.Keys - {id}) + {id};
      assert AfterLock(env, l1, id) == l1;
    }
  }

  // ---- The data: log, buffer, bytes under way ----

  predicate Ordered(l: Link) {
    |l.delivered| <= |l.log| && forall i :: 0 <= i < |l.delivered| ==> l.delivered[i] == l.log[i].event
  }

  function InFlight(l: Link): seq<Entry>
    requires |l.delivered| <= |l.log|
  {
    l.log[|l.delivered|..]
  }

  predicate LogOk(env: Env, log: seq<Entry>) {
    forall i :: 0 <= i < |log| ==> WasSealed(env, log[i])
  }

  /** The bytes read and on the wire (`sent`) and those still in the write buffer are the frames in flight, whole and
      in order. */
  predicate BytesOk(sent: Bytes, buffer: Bytes, active: map<Id, Span>, frames: Bytes) {
    && (active.Keys == {} ==> sent == frames)
    && (forall id <- active ::
          active[id].sent <= active[id].len == |buffer| && sent + buffer[active[id].sent..] == frames)
  }

  /** The shared buffer holds the frame sealed last while somebody writes it out. */
  predicate BufferOk(l: Link) {
    l.active.Keys != {} ==> l.log != [] && l.buffer == l.log[|l.log| - 1].frame
  }

  /** After a failed write: until the reader gets to the k-th frame it has all the frames before it, whole and in order, and
      as long as nothing was sealed since, nothing that is not of the k-th frame behind them. */
  predicate TornOk(l: Link, k: nat) {
    && k < |l.log|
    && (l.active.Keys != {} ==> k + 1 < |l.log|)
    && (if |l.delivered| <= k then
          && Ordered(l) && Frames(l.log[|l.delivered|..k]) <= l.readable + l.wire
          && (k + 1 == |l.log| ==> l.readable + l.wire <= Frames(InFlight(l)))
        else forall i :: 0 <= i < k ==> l.delivered[i] == l.log[i].event)
  }

  predicate DataInv(env: Env, l: Link) {
    && LogOk(env, l.log)
    && BufferOk(l)
    && match l.torn
       case None => Ordered(l) && BytesOk(l.readable + l.wire, l.buffer, l.active, Frames(InFlight(l)))
       case Some(k) => TornOk(l, k)
  }

  /** The link is in the same state as far as the data invariant is concerned. */
  lemma SameData(env: Env, l: Link, l': Link)
    requires DataInv(env, l) && l' == l.(mutex := l'.mutex, want := l'.want, encIv := l'.encIv, decIv := l'.decIv)
    ensures DataInv(env, l')
  {
    hide LogOk, BytesOk, Frames;
    if |l.delivered| <= |l.log| {
      assert InFlight(l') == InFlight(l);
    }
  }

  lemma AfterLockKeepsData(env: Env, l: Link, id: Id)
    requires DataInv(env, l) && id in l.want && Writable(env, l.want[id])
    requires id in l.mutex.world.inside ==> l.active == map[]
    ensures DataInv(env, AfterLock(env, l, id))
  {
    hide Seal, Writable, WasSealed;
    var l' := AfterLock(env, l, id);
    var s := Seal(env.aead, env.pb, l.encIv, l.want[id], OUT_SIZE);
    if id in l.mutex.world.inside && s.SealedFrame? {
      var en := Entry(l.encIv, s.event, s.frame);
      SealedIsEntry(env, l.encIv, l.want[id]);
      assert l'.log == l.log + [en] && l'.active.Keys == {id};
      LogOkAppend(env, l.log, en);
      if l.torn.None? {
        FramesAppend(InFlight(l), en);
        assert InFlight(l') == InFlight(l) + [en];
        assert s.frame[0..] == s.frame;
      } else if |l.delivered| <= l.torn.value {
        assert l'.log[|l.delivered|..l.torn.value] == l.log[|l.delivered|..l.torn.value];
      }
    } else {
      SameData(env, l, l');
    }
  }

  lemma LogOkAppend(env: Env, log: seq<Entry>, en: Entry)
    requires LogOk(env, log) && WasSealed(env, en)
    ensures LogOk(env, log + [en])
  {
  }

  lemma PushKeepsData(env: Env, l: Link, id: Id, k: nat)
    requires DataInv(env, l) && l.active.Keys == {id} && l.active[id].sent + k <= l.active[id].len <= |l.buffer|
    ensures DataInv(env, Push(l, id, k))
  {
    hide LogOk, Frames;
    var l' := Push(l, id, k);
    var at := l.active[id].sent;
    assert l'.active.Keys == {id};
    if l.torn.None? {
      assert InFlight(l') == InFlight(l);
      MoveBytes(l.readable, l.wire, l.buffer, at, k);
    } else {
      Associate(l.readable, l.wire, l.buffer[at..at + k]);
    }
  }

  /** Bytes that go from the write buffer to the wire stay where they are in the stream. */
  lemma MoveBytes(readable: Bytes, wire: Bytes, buffer: Bytes, at: nat, k: nat)
    requires at + k <= |buffer|
    ensures readable + (wire + buffer[at..at + k]) + buffer[at + k..] == readable + wire + buffer[at..]
  {
    assert buffer[at..] == buffer[at..at + k] + buffer[at + k..];
  }

  lemma FinishWriteKeepsData(env: Env, l: Link, id: Id)
    requires DataInv(env, l) && l.active.Keys == {id} && l.active[id].sent == l.active[id].len
    ensures DataInv(env, FinishWrite(l, id))
  {
    hide LogOk, Frames, M.Leave;
    var l' := FinishWrite(l, id);
    assert l'.active.Keys == {};
    if l.torn.None? {
      assert l.buffer[|l.buffer|..] == [];
      assert l.readable + l.wire + [] == l.readable + l.wire;
      assert InFlight(l') == InFlight(l);
    }
  }

  /** The frame that is torn is the last one sealed, and all frames before it are out. */
  lemma FailWriteKeepsData(env: Env, l: Link, id: Id)
    requires DataInv(env, l) && l.active.Keys == {id}
    ensures DataInv(env, FailWrite(l, id))
  {
    hide LogOk, Frames, M.Leave;
    var l' := FailWrite(l, id);
    assert l'.active.Keys == {};
    if l.torn.None? {
      var n, k := |l.delivered|, |l.log| - 1;
      if n <= k {
        var last := l.log[k];
        var before := l.log[n..k];
        assert InFlight(l) == before + [last] && InFlight(l') == InFlight(l);
        FramesAppend(before, last);
        CutFrames(l.readable + l.wire, last.frame, l.active[id].sent, Frames(before));
      }
    }
  }

  lemma CutFrames(sent: Bytes, frame: Bytes, at: nat, before: Bytes)
    requires at <= |frame| && sent + frame[at..] == before + frame
    ensures before <= sent <= before + frame
  {
    assert |sent| == |before| + at;
    assert sent == (sent + frame[at..])[..|sent|] == (before + frame)[..|sent|];
  }

  lemma PullKeepsData(env: Env, l: Link, k: nat)
    requires DataInv(env, l) && k <= |l.wire|
    ensures DataInv(env, Pull(l, k))
  {
    hide LogOk, Frames;
    var l' := Pull(l, k);
    Associate(l.readable, l.wire[..k], l.wire[k..]);
    assert l.wire == l.wire[..k] + l.wire[k..];
    assert l'.readable + l'.wire == l.readable + l.wire;
    if |l.delivered| <= |l.log| {
      assert InFlight(l') == InFlight(l);
    }
  }

  // ---- What a reader sees ----

  /** The reader has not gone past the first frame whose write failed, and nothing sealed later can be in front of it. */
  predicate Sound(l: Link) {
    match l.torn
    case None => true
    case Some(k) => |l.delivered| < k || (|l.delivered| == k && |l.log| == k + 1)
  }

  /** The readable bytes are the front of the next frame in flight and something behind it; or there is none of either. */
  lemma ReadableIsFront(env: Env, l: Link) returns (rest: Bytes)
    requires DataInv(env, l) && Sound(l)
    ensures |l.delivered| <= |l.log|
    ensures |l.delivered| < |l.log| ==> l.readable <= l.log[|l.delivered|].frame + rest
    ensures |l.delivered| == |l.log| ==> l.readable == []
    ensures l.torn.None? && l.wire == [] && l.active.Keys == {} ==> l.readable == Frames(InFlight(l))
    ensures l.torn.Some? && |l.delivered| < l.torn.value && l.wire == [] ==> |l.log[|l.delivered|].frame| <= |l.readable|
  {
    var n := |l.delivered|;
    var sent := l.readable + l.wire;
    match l.torn
    case None =>
      var es := InFlight(l);
      ReadableIsPrefix(l.readable, l.wire, l.buffer, l.active, Frames(es));
      rest := if es == [] then [] else Frames(es[1..]);
      assert es != [] ==> es[0] == l.log[n];
    case Some(k) =>
      if n < k {
        var es := l.log[n..k];
        assert es[0] == l.log[n];
        var f := Frames(es);
        assert sent == f + sent[|f|..];
        rest := Frames(es[1..]) + sent[|f|..];
        Associate(l.log[n].frame, Frames(es[1..]), sent[|f|..]);
      } else {
        var es := InFlight(l);
        assert es == [l.log[n]] && es[1..] == [];
        assert Frames(es) == l.log[n].frame + [];
        rest := [];
      }
  }

  lemma ReadableIsPrefix(readable: Bytes, wire: Bytes, buffer: Bytes, active: map<Id, Span>, frames: Bytes)
    requires BytesOk(readable + wire, buffer, active, frames)
    ensures readable <= frames && (active.Keys == {} && wire == [] ==> readable == frames)
  {
    if active.Keys != {} {
      var id :| id in active;
      Associate(readable, wire, buffer[active[id].sent..]);
    }
    assert wire == [] ==> readable + wire == readable;
  }

  /** A reader whose counter is that of the next frame in flight and that is not past a failed write never sees a damaged
      frame: it gets exactly the next event of the log, or waits for more bytes. With nobody writing and nothing on the
      wire it has got everything; with nothing on the wire it gets everything before the first failed write. */
  lemma PeekIsNextOfLog(env: Env, l: Link)
    requires DataInv(env, l) && Sound(l)
    requires |l.delivered| < |l.log| ==> l.decIv == l.log[|l.delivered|].iv
    ensures !Peek(env, l).OpenError?
    ensures Peek(env, l).OpenedEvent? ==>
              && |l.delivered| < |l.log| && Peek(env, l).event == l.log[|l.delivered|].event
              && Peek(env, l).len == |l.log[|l.delivered|].frame|
    ensures l.torn.None? && Peek(env, l).NeedMore? && l.wire == [] && l.active.Keys == {} ==> |l.delivered| == |l.log|
    ensures l.torn.Some? && |l.delivered| < l.torn.value && l.wire == [] ==> Peek(env, l).OpenedEvent?
  {
    hide Open, WasSealed;
    var rest := ReadableIsFront(env, l);
    var n := |l.delivered|;
    if n == |l.log| {
      NothingReadable(env, l);
    } else {
      FrontOfStream(env, l.log[n], rest, l.readable);
      assert InFlight(l)[0] == l.log[n];
    }
  }

  lemma NothingReadable(env: Env, l: Link)
    requires l.readable == []
    ensures Peek(env, l).NeedMore?
  {
  }

  lemma TakeKeepsData(env: Env, l: Link)
    requires DataInv(env, l) && Peek(env, l).OpenedEvent?
    requires |l.delivered| < |l.log| ==> l.decIv == l.log[|l.delivered|].iv
    ensures DataInv(env, Take(env, l))
  {
    hide Peek, LogOk;
    var l' := Take(env, l);
    if Sound(l) {
      PeekIsNextOfLog(env, l);
      var n := |l.delivered|;
      var es := InFlight(l);
      assert es[0] == l.log[n] && es[1..] == InFlight(l');
      match l.torn
      case None => DropFrame(l.readable, l.wire, l.buffer, l.active, es[0].frame, Frames(es[1..]));
      case Some(k) =>
        if n < k {
          var before := l.log[n..k];
          assert before[0] == l.log[n] && before[1..] == l.log[n + 1..k];
          DropFromFront(l.readable, l.wire, es[0].frame, Frames(before[1..]));
          if k + 1 == |l.log| {
            DropFromBoth(l.readable, l.wire, es[0].frame, Frames(es[1..]));
          }
        }
    }
  }

  lemma DropFromFront(readable: Bytes, wire: Bytes, f: Bytes, frames: Bytes)
    requires f + frames <= readable + wire && |f| <= |readable|
    ensures frames <= readable[|f|..] + wire
  {
    assert (readable + wire)[|f|..] == readable[|f|..] + wire;
    assert (f + frames)[|f|..] == frames;
    assert forall i :: 0 <= i < |frames| ==> frames[i] == (f + frames)[|f| + i] == (readable + wire)[|f| + i];
  }

  lemma DropFromBoth(readable: Bytes, wire: Bytes, f: Bytes, frames: Bytes)
    requires readable + wire <= f + frames && |f| <= |readable|
    ensures readable[|f|..] + wire <= frames
  {
    var left := readable[|f|..] + wire;
    assert (readable + wire)[|f|..] == left;
    assert forall i :: 0 <= i < |left| ==> left[i] == (readable + wire)[|f| + i] == (f + frames)[|f| + i] == frames[i];
  }

  /** Taking a whole frame from the front of the readable bytes. */
  lemma DropFrame(readable: Bytes, wire: Bytes, buffer: Bytes, active: map<Id, Span>, f: Bytes, frames: Bytes)
    requires BytesOk(readable + wire, buffer, active, f + frames) && |f| <= |readable|
    ensures BytesOk(readable[|f|..] + wire, buffer, active, frames)
  {
    assert (f + frames)[|f|..] == frames;
    assert (readable + wire)[|f|..] == readable[|f|..] + wire;
    forall id | id in active
      ensures readable[|f|..] + wire + buffer[active[id].sent..] == frames
    {
      var tail := buffer[active[id].sent..];
      assert (readable + wire + tail)[|f|..] == readable[|f|..] + wire + tail;
    }
  }

  // ---- What every step keeps ----

  predicate Inv(env: Env, l: Link) {
    WritersInv(env, l) && DataInv(env, l)
  }

  lemma AfterLockKeepsInv(env: Env, l: Link, l1: Link, id: Id)
    requires Inv(env, l) && l1 == l.(mutex := l1.mutex, want := l1.want)
    requires id in l1.want && (forall x <- l1.want :: Writable(env, l1.want[x]))
    requires LockOutcome(l1.mutex, l.mutex.world.inside, l1.want.Keys - {id}, id)
    ensures Inv(env, AfterLock(env, l1, id))
  {
    hide WritersInv, DataInv, AfterLock, Writable, LockOutcome;
    AfterLockKeepsWriters(env, l, l1, id);
    SameData(env, l, l1);
    AfterLockKeepsData(env, l1, id);
  }

  lemma AddWant(env: Env, want: map<Id, Event>, id: Id, e: Event)
    requires id !in want && Writable(env, e) && (forall x <- want :: Writable(env, want[x]))
    ensures var want' := want[id := e];
            (forall x <- want' :: Writable(env, want'[x])) && want'.Keys - {id} == want.Keys
  {
  }

  lemma StartWriteKeepsInv(env: Env, l: Link, id: Id, e: Event)
    requires Inv(env, l) && Writable(env, e) && M.Outside(l.mutex.world, id)
    ensures Inv(env, StartWrite(env, l, id, e))
  {
    hide DataInv, M.Inv, Writable, LockOutcome;
    LockEnterOutcome(l.mutex, id);
    AddWant(env, l.want, id, e);
    AfterLockKeepsInv(env, l, l.(mutex := M.Apply(l.mutex, M.LockEnter(id)), want := l.want[id := e]), id);
  }

  lemma ResumeWriteKeepsInv(env: Env, l: Link, id: Id)
    requires Inv(env, l) && id in l.mutex.world.woken
    ensures id in l.want && Inv(env, ResumeWrite(env, l, id))
  {
    LockResumeOutcome(l.mutex, id);
    AfterLockKeepsInv(env, l, l.(mutex := M.Apply(l.mutex, M.LockResume(id))), id);
  }

  lemma PushKeepsInv(env: Env, l: Link, id: Id, k: nat)
    requires Inv(env, l) && id in l.active && l.active[id].sent + k <= l.active[id].len <= |l.buffer|
    ensures Inv(env, Push(l, id, k))
  {
    hide DataInv, M.OnePlace, M.ChannelOk, Writable;
    OneWriter(env, l, id);
    PushKeepsData(env, l, id, k);
    assert Push(l, id, k).active.Keys == {id};
  }

  lemma FinishWriteKeepsInv(env: Env, l: Link, id: Id)
    requires Inv(env, l) && id in l.active && l.active[id].sent == l.active[id].len
    ensures Inv(env, FinishWrite(l, id))
  {
    hide DataInv, M.OnePlace, M.ChannelOk, Writable;
    OneWriter(env, l, id);
    LeaveKeepsWaiting(l.mutex, id);
    FinishWriteKeepsData(env, l, id);
  }

  lemma FailWriteKeepsInv(env: Env, l: Link, id: Id)
    requires Inv(env, l) && id in l.active
    ensures Inv(env, FailWrite(l, id))
  {
    hide DataInv, M.OnePlace, M.ChannelOk, Writable;
    OneWriter(env, l, id);
    LeaveKeepsWaiting(l.mutex, id);
    FailWriteKeepsData(env, l, id);
  }

  lemma ResumeUnlockKeepsInv(env: Env, l: Link, id: Id)
    requires Inv(env, l) && id in l.mutex.world.sendDone
    ensures Inv(env, ResumeUnlock(l, id))
  {
    hide DataInv;
    M.StepKeepsInv(l.mutex, M.UnlockResume(id));
    SameData(env, l, ResumeUnlock(l, id));
  }

  lemma PullKeepsInv(env: Env, l: Link, k: nat)
    requires Inv(env, l) && k <= |l.wire|
    ensures Inv(env, Pull(l, k))
  {
    hide DataInv;
    PullKeepsData(env, l, k);
  }

  lemma TakeKeepsInv(env: Env, l: Link)
    requires Inv(env, l) && Peek(env, l).OpenedEvent?
    requires |l.delivered| < |l.log| ==> l.decIv == l.log[|l.delivered|].iv
    ensures Inv(env, Take(env, l))
    ensures Sound(l) ==> |l.delivered| < |l.log| && Peek(env, l).event == l.log[|l.delivered|].event
  {
    hide DataInv, Peek, Sound;
    if Sound(l) {
      PeekIsNextOfLog(env, l);
    }
    TakeKeepsData(env, l);
  }

  /** The invariant does not speak of the two counters. */
  lemma CountersAreFree(env: Env, l: Link, iv: U64)
    requires Inv(env, l)
    ensures Inv(env, l.(encIv := iv)) && Inv(env, l.(decIv := iv))
  {
    hide DataInv;
    SameData(env, l, l.(encIv := iv));
    SameData(env, l, l.(decIv := iv));
  }
}
