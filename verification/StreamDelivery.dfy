/** Streams on top of a connection: the table, the capacity-one data channel of each stream, and the read loop that
    dispatches events to them (snova/mux/mux_stream.cc, snova/mux/mux_connection.cc, ProcessReadEvent). */
module StreamDelivery {
  import opened Wire
  import opened MuxEvents
  import H = Handshake
  import L = MuxLink

  type Sid = U32
  type Chunk = Bytes

  // ---- One stream ----

  /** A coroutine in Read: none, parked in the channel, completed with a chunk, or completed with an error. */
  datatype ReadState = NoRead | ReadParked | ReadReady(chunk: Chunk) | ReadFailed

  /** `queue` and `parked` are the data channel: at most one buffered chunk and at most one parked send, that of the read
      loop. `got` are the chunks Read has returned; `missed` counts the chunks dispatched before registration. */
  datatype Stream = Stream(closed: bool, queue: seq<Chunk>, parked: Option<Chunk>, read: ReadState, got: seq<Chunk>,
                           missed: nat)

  /** `Offer` on an open stream: to a parked Read, into the buffer, or park. */
  function Offer(st: Stream, c: Chunk): Stream {
    if st.closed then st
    else if st.read.ReadParked? then st.(read := ReadReady(c))
    else if |st.queue| < 1 then st.(queue := st.queue + [c])
    else st.(parked := Some(c))
  }

  /** `Read` called when no Read is under way; on a closed stream it returns an error at once. */
  function BeginRead(st: Stream): Stream {
    if st.closed then st
    else if st.queue != [] then
      st.(read := ReadReady(st.queue[0]),
          queue := st.queue[1..] + (if st.parked.Some? then [st.parked.value] else []), parked := None)
    else st.(read := ReadParked)
  }

  function EndRead(st: Stream): Stream {
    if st.read.ReadReady? then st.(got := st.got + [st.read.chunk], read := NoRead) else st.(read := NoRead)
  }

  /** `Close`: pending operations are cancelled, what a Read has already been handed stays with it. */
  function Shut(st: Stream): Stream {
    if st.closed then st
    else st.(closed := true, parked := None, read := if st.read.ReadParked? then ReadFailed else st.read)
  }

  /** Everything the stream has taken in, in order. */
  function Flow(st: Stream): seq<Chunk> {
    st.got + (if st.read.ReadReady? then [st.read.chunk] else []) + st.queue +
    (if st.parked.Some? then [st.parked.value] else [])
  }

  predicate StreamOk(st: Stream) {
    && |st.queue| <= 1
    && (st.read.ReadParked? ==> st.queue == [] && !st.closed)
    && (st.parked.Some? ==> |st.queue| == 1 && !st.closed)
  }

  lemma OfferFlow(st: Stream, c: Chunk)
    requires StreamOk(st) && !st.closed && st.parked.None?
    ensures StreamOk(Offer(st, c)) && Flow(Offer(st, c)) == Flow(st) + [c]
    ensures !Offer(st, c).closed && Offer(st, c).missed == st.missed
  {
  }

  lemma ReadFlow(st: Stream)
    requires StreamOk(st)
    ensures st.read.NoRead? ==> StreamOk(BeginRead(st)) && Flow(BeginRead(st)) == Flow(st) && BeginRead(st).got == st.got
    ensures !st.read.ReadParked? ==> StreamOk(EndRead(st)) && Flow(EndRead(st)) == Flow(st)
  {
    if st.queue != [] {
      assert st.queue == [st.queue[0]] + st.queue[1..];
    }
  }

  lemma ShutFlow(st: Stream)
    requires StreamOk(st)
    ensures StreamOk(Shut(st)) && Flow(Shut(st)) <= Flow(st)
    ensures Shut(st).closed && Shut(st).parked.None? && Shut(st).missed == st.missed
  {
  }

  // ---- The endpoint ----

  /** The read loop: free, parked in the Offer to a stream, or past it and not yet resumed. */
  datatype Loop = Free | Offering(sid: Sid) | Offered

  /** `written` are the events the peer put on the connection, `taken` how many of them have been dispatched. `streams`
      are all stream objects, `table` the registered ones; `forcedCloses` the close events sent for unknown streams. */
  datatype State = State(written: seq<Event>, taken: nat, loop: Loop, streams: map<Sid, Stream>, table: set<Sid>,
                         lastUnmatched: Sid, forcedCloses: seq<Sid>)

  const INIT: State := State([], 0, Free, map[], {}, 0, [])

  datatype Step =
    | PeerWrites(e: Event)
    | Dispatch
    | LoopResumes
    | Register(sid: Sid)
    | Unregister(sid: Sid)
    | ReadBegins(sid: Sid)
    | ReadEnds(sid: Sid)
    | CloseStream(sid: Sid)

  /** A stream id is used once: see NextID. */
  predicate Enabled(s: State, t: Step) {
    match t
    case PeerWrites(_) => true
    case Dispatch => s.loop.Free? && s.taken < |s.written|
    case LoopResumes => s.loop.Offered?
    case Register(sid) => sid !in s.streams
    case Unregister(_) => true
    case ReadBegins(sid) => sid in s.streams && s.streams[sid].read.NoRead?
    case ReadEnds(sid) => sid in s.streams && (s.streams[sid].read.ReadReady? || s.streams[sid].read.ReadFailed?)
    case CloseStream(sid) => sid in s.streams
  }

  function Chunks(es: seq<Event>, sid: Sid): seq<Chunk> {
    if es == [] then []
    else
      var n := |es| - 1;
      Chunks(es[..n], sid) + if es[n].body.StreamChunk? && es[n].head.sid == sid then [es[n].body.data] else []
  }

  function Dispatched(s: State): seq<Event> {
    s.written[..if s.taken <= |s.written| then s.taken else 0]
  }

  function CloseAt(s: State, sid: Sid): State
    requires sid in s.streams
  {
    s.(streams := s.streams[sid := Shut(s.streams[sid])],
       table := if s.streams[sid].closed then s.table else s.table - {sid},
       loop := if s.loop == Offering(sid) then Offered else s.loop)
  }

  /** ProcessReadEvent on one event. */
  function DispatchEvent(s: State, e: Event): State {
    var sid := e.head.sid;
    match e.body
    case StreamClose => if sid in s.table && sid in s.streams then CloseAt(s, sid) else s
    case StreamChunk(data) =>
      if sid in s.table && sid in s.streams then
        var st := Offer(s.streams[sid], data);
        s.(streams := s.streams[sid := st], loop := if st.parked.Some? then Offering(sid) else Offered)
      else if s.lastUnmatched != sid then
        s.(lastUnmatched := sid, forcedCloses := s.forcedCloses + [sid])
      else s
    case _ => s
  }

  function Apply(s: State, t: Step): State {
    if !Enabled(s, t) then s
    else
      match t
      case PeerWrites(e) => s.(written := s.written + [e])
      case Dispatch => DispatchEvent(s.(taken := s.taken + 1), s.written[s.taken])
      case LoopResumes => s.(loop := Free)
      case Register(sid) =>
        s.(streams := s.streams[sid := Stream(false, [], None, NoRead, [], |Chunks(Dispatched(s), sid)|)],
           table := s.table + {sid})
      case Unregister(sid) => s.(table := s.table - {sid})
      case ReadBegins(sid) =>
        var st := s.streams[sid];
        s.(streams := s.streams[sid := BeginRead(st)],
           loop := if s.loop == Offering(sid) && BeginRead(st).parked.None? then Offered else s.loop)
      case ReadEnds(sid) => s.(streams := s.streams[sid := EndRead(s.streams[sid])])
      case CloseStream(sid) => CloseAt(s, sid)
  }

  function Run(schedule: seq<Step>): State {
    if schedule == [] then INIT
    else var n := |schedule| - 1; Apply(Run(schedule[..n]), schedule[n])
  }

  // ---- What every step keeps ----

  /** A stream has taken in a run of its peer's chunks; all of them since registration, while it is registered. */
  predicate InOrder(st: Stream, chunks: seq<Chunk>, registered: bool) {
    && st.missed <= |chunks|
    && Flow(st) <= chunks[st.missed..]
    && (registered ==> !st.closed && Flow(st) == chunks[st.missed..])
  }

  predicate StreamInv(s: State, sid: Sid)
    requires sid in s.streams && s.taken <= |s.written|
  {
    && StreamOk(s.streams[sid])
    && (s.streams[sid].parked.Some? <==> s.loop == Offering(sid))
    && InOrder(s.streams[sid], Chunks(s.written[..s.taken], sid), sid in s.table)
  }

  predicate Inv(s: State) {
    && s.taken <= |s.written|
    && (forall sid <- s.table :: sid in s.streams)
    && (s.loop.Offering? ==> s.loop.sid in s.streams)
    && (forall sid <- s.streams :: StreamInv(s, sid))
  }

  lemma ChunksAppend(es: seq<Event>, e: Event, sid: Sid)
    ensures Chunks(es + [e], sid) ==
            Chunks(es, sid) + if e.body.StreamChunk? && e.head.sid == sid then [e.body.data] else []
  {
    assert (es + [e])[..|es|] == es;
  }

  lemma CloseKeepsInv(s: State, sid: Sid)
    requires Inv(s) && sid in s.streams
    ensures Inv(CloseAt(s, sid))
  {
    ShutFlow(s.streams[sid]);
  }

  /** Taking one more event changes only what the stream it names has to account for. */
  lemma DispatchKeepsStream(s: State, sid: Sid)
    requires Inv(s) && s.loop.Free? && s.taken < |s.written|
    requires sid in s.streams
    ensures var s' := DispatchEvent(s.(taken := s.taken + 1), s.written[s.taken]);
            s'.taken == s.taken + 1 && s'.written == s.written && s'.streams.Keys == s.streams.Keys && StreamInv(s', sid)
  {
    hide Offer, Shut, Flow, StreamOk, Chunks;
    var e := s.written[s.taken];
    assert s.written[..s.taken + 1] == s.written[..s.taken] + [e];
    ChunksAppend(s.written[..s.taken], e, sid);
    var st := s.streams[sid];
    if sid == e.head.sid && sid in s.table {
      if e.body.StreamChunk? {
        OfferFlow(st, e.body.data);
      } else if e.body.StreamClose? {
        ShutFlow(st);
      }
    }
  }

  lemma DispatchKeepsInv(s: State)
    requires Inv(s) && s.loop.Free? && s.taken < |s.written|
    ensures Inv(DispatchEvent(s.(taken := s.taken + 1), s.written[s.taken]))
  {
    hide Offer, Shut, StreamOk, InOrder, Chunks;
    var s' := DispatchEvent(s.(taken := s.taken + 1), s.written[s.taken]);
    assert forall sid <- s'.table :: sid in s.table;
    assert s'.taken <= |s'.written| && (s'.loop.Offering? ==> s'.loop.sid in s'.streams);
    forall sid | sid in s'.streams
      ensures StreamInv(s', sid)
    {
      DispatchKeepsStream(s, sid);
    }
  }

  lemma RegisterKeepsInv(s: State, sid: Sid)
    requires Inv(s) && sid !in s.streams
    ensures Inv(Apply(s, Register(sid)))
  {
    hide Chunks;
    var s' := Apply(s, Register(sid));
    assert Flow(s'.streams[sid]) == [];
    assert InOrder(s'.streams[sid], Chunks(s'.written[..s'.taken], sid), true);
  }

  lemma ReadKeepsInv(s: State, t: Step)
    requires Inv(s) && Enabled(s, t) && (t.ReadBegins? || t.ReadEnds?)
    ensures Inv(Apply(s, t))
  {
    hide Chunks, Flow;
    ReadFlow(s.streams[t.sid]);
  }

  lemma StepKeepsInv(s: State, t: Step)
    requires Inv(s)
    ensures Inv(Apply(s, t))
  {
    hide Chunks, DispatchEvent, CloseAt, StreamOk, InOrder;
    if Enabled(s, t) {
      match t
      case PeerWrites(e) => assert (s.written + [e])[..s.taken] == s.written[..s.taken];
      case Dispatch => DispatchKeepsInv(s);
      case LoopResumes =>
      case Register(sid) => RegisterKeepsInv(s, sid);
      case Unregister(sid) => UnregisterKeepsInv(s, sid);
      case ReadBegins(sid) => ReadKeepsInv(s, t);
      case ReadEnds(sid) => ReadKeepsInv(s, t);
      case CloseStream(sid) => CloseKeepsInv(s, sid);
    }
  }

  lemma UnregisterKeepsInv(s: State, sid: Sid)
    requires Inv(s)
    ensures Inv(Apply(s, Unregister(sid)))
  {
    hide Chunks, Flow;
  }

  lemma {:induction false} EveryRunKeepsInv(schedule: seq<Step>)
    ensures Inv(Run(schedule))
  {
    if schedule != [] {
      var n := |schedule| - 1;
      EveryRunKeepsInv(schedule[..n]);
      StepKeepsInv(Run(schedule[..n]), schedule[n]);
    }
  }

  // ---- The promises ----

  lemma {:induction false} ChunksOfPrefix(es: seq<Event>, n: nat, sid: Sid)
    requires n <= |es|
    ensures Chunks(es[..n], sid) <= Chunks(es, sid)
  {
    if n < |es| {
      var m := |es| - 1;
      ChunksOfPrefix(es[..m], n, sid);
      assert es[..m][..n] == es[..n];
    } else {
      assert es[..n] == es;
    }
  }

  /** In every run, closes and cancelled operations included, what the Reads of a stream have returned are its peer's
      chunks from the first one dispatched after registration on, in order and without gap, and no other stream's. */
  lemma ReadsArePrefixOfWrites(schedule: seq<Step>, sid: Sid)
    requires sid in Run(schedule).streams
    ensures var s := Run(schedule); var st := s.streams[sid];
            && st.missed <= |Chunks(s.written, sid)|
            && st.got <= Chunks(s.written, sid)[st.missed..]
            && (st.missed == 0 ==> st.got <= Chunks(s.written, sid))
  {
    EveryRunKeepsInv(schedule);
    ReadsOfState(Run(schedule), sid);
  }

  lemma ReadsOfState(s: State, sid: Sid)
    requires Inv(s) && sid in s.streams
    ensures var st := s.streams[sid];
            && st.missed <= |Chunks(s.written, sid)|
            && st.got <= Chunks(s.written, sid)[st.missed..]
            && (st.missed == 0 ==> st.got <= Chunks(s.written, sid))
  {
    ChunksOfPrefix(s.written, s.taken, sid);
    var st := s.streams[sid];
    assert st.got <= Flow(st);
  }

  /** The number of chunks a stream missed is fixed at registration. */
  lemma MissedIsFixed(s: State, t: Step, sid: Sid)
    requires Inv(s) && sid in s.streams
    ensures sid in Apply(s, t).streams && Apply(s, t).streams[sid].missed == s.streams[sid].missed
  {
  }

  /** The relay coroutine that registers a stream is spawned when the open event is dispatched. If the first chunk behind
      that event is dispatched before the coroutine runs, the stream reads from its second chunk on: the run shows
      it for every first chunk `a` and every second chunk `b`. */
  lemma LateRegistrationExample(a: Event, b: Event)
    requires a.body.StreamChunk? && b.body.StreamChunk? && a.head.sid == b.head.sid
    ensures var sid := a.head.sid;
            var run := [PeerWrites(a), Dispatch, Register(sid), PeerWrites(b), Dispatch, ReadBegins(sid), ReadEnds(sid)];
            sid in Run(run).streams && Run(run).streams[sid].got == [b.body.data] && Run(run).written == [a, b]
  {
    var sid := a.head.sid;
    var run := [PeerWrites(a), Dispatch, Register(sid), PeerWrites(b), Dispatch, ReadBegins(sid), ReadEnds(sid)];
    hide Run, Apply;
    RunStep(run, 1);
    RunStep(run, 2);
    RunStep(run, 3);
    RunStep(run, 4);
    RunStep(run, 5);
    RunStep(run, 6);
    RunStep(run, 7);
    assert run[..0] == [] && run[..7] == run && [a] + [b] == [a, b];
    RunNothing();
    LateRegistrationStart(a);
    LateRegistrationRest(Apply(Apply(Apply(INIT, PeerWrites(a)), Dispatch), Register(sid)), sid, b);
  }

  lemma RunNothing()
    ensures Run([]) == INIT
  {
  }

  lemma LateRegistrationStart(a: Event)
    requires a.body.StreamChunk?
    ensures var sid := a.head.sid; var s := Apply(Apply(Apply(INIT, PeerWrites(a)), Dispatch), Register(sid));
            && sid in s.streams && sid in s.table && s.loop.Free? && s.taken == |s.written| && s.written == [a]
            && s.streams[sid] == Stream(false, [], None, NoRead, [], 1)
  {
    hide Chunks;
    var s1 := Apply(INIT, PeerWrites(a));
    assert s1.written == [a];
    var s2 := Apply(s1, Dispatch);
    assert s2.written == [a] && s2.taken == 1 && s2.streams == map[];
    ChunksAppend([], a, a.head.sid);
    assert [] + [a] == [a] && [a][..1] == [a];
    NoChunks(a.head.sid);
  }

  lemma NoChunks(sid: Sid)
    ensures Chunks([], sid) == []
  {
  }

  lemma LateRegistrationRest(s: State, sid: Sid, b: Event)
    requires b.body.StreamChunk? && b.head.sid == sid
    requires sid in s.streams && sid in s.table && s.loop.Free? && s.taken == |s.written|
    requires var st := s.streams[sid]; !st.closed && st.queue == [] && st.parked.None? && st.read.NoRead? && st.got == []
    ensures var s4 := Apply(Apply(s, PeerWrites(b)), Dispatch);
            var s6 := Apply(Apply(s4, ReadBegins(sid)), ReadEnds(sid));
            sid in s6.streams && s6.streams[sid].got == [b.body.data] && s6.written == s.written + [b]
  {
    hide Chunks;
    var s4 := Apply(Apply(s, PeerWrites(b)), Dispatch);
    assert s4.streams[sid].queue == [b.body.data];
    var s5 := Apply(s4, ReadBegins(sid));
    assert s5.streams[sid].read == ReadReady(b.body.data);
  }

  lemma RunStep(run: seq<Step>, n: nat)
    requires 1 <= n <= |run|
    ensures Run(run[..n]) == Apply(Run(run[..n - 1]), run[n - 1])
  {
    assert run[..n][..n - 1] == run[..n - 1];
  }

  /** End to end: with the read loop fed by a connection, the Reads of a stream return a run of the chunks that the
      peer wrote to it, in the order in which its writers got the mutex. */
  lemma ReadsArePrefixOfPeerWrites(env: L.Env, iv: U64, connection: seq<H.Step>, side: H.Side,
                                   schedule: seq<Step>, sid: Sid)
    requires var l := H.Run(env, iv, connection).Out(side); var s := Run(schedule);
             s.taken <= |s.written| && s.written[..s.taken] == l.delivered && H.BeforeFailure(l)
    requires sid in Run(schedule).streams
    ensures var l := H.Run(env, iv, connection).Out(side); var st := Run(schedule).streams[sid];
            st.missed <= |Chunks(H.Written(l), sid)| && st.got <= Chunks(H.Written(l), sid)[st.missed..]
  {
    hide H.Run, L.Peek, H.Reading, L.Sound;
    var l := H.Run(env, iv, connection).Out(side);
    var s := Run(schedule);
    H.DeliveredIsPrefixOfWritten(env, iv, connection, side);
    EveryRunKeepsInv(schedule);
    ChunksOfPrefix(H.Written(l), |l.delivered|, sid);
    assert H.Written(l)[..|l.delivered|] == l.delivered;
    assert s.streams[sid].got <= Flow(s.streams[sid]);
  }

  // ---- Chunks for unknown streams ----

  /** The id remembered is the last one for which a close was forced, and no two successive ones are alike. */
  predicate ForcedOk(s: State) {
    var f := s.forcedCloses;
    && s.lastUnmatched == (if f == [] then 0 else f[|f| - 1])
    && (forall i :: 0 <= i < |f| - 1 ==> f[i] != f[i + 1])
    && (f != [] ==> f[0] != 0)
  }

  lemma {:induction false} EveryRunKeepsForced(schedule: seq<Step>)
    ensures ForcedOk(Run(schedule))
  {
    hide Chunks;
    if schedule != [] {
      var n := |schedule| - 1;
      EveryRunKeepsForced(schedule[..n]);
    }
  }

  /** After every run: the dispatch of a chunk whose stream is not registered forces a close of that stream, unless the
      last one forced was of the same stream (or the id is 0 and none was forced yet); every other step forces none. So a
      burst of chunks for one unknown stream is answered once. */
  lemma ForcedExactlyWhen(schedule: seq<Step>, t: Step)
    ensures var s := Run(schedule); var s' := Apply(s, t); var last := if s.forcedCloses == [] then 0 else s.forcedCloses[|s.forcedCloses| - 1];
            if t == Dispatch && Enabled(s, t) && s.written[s.taken].body.StreamChunk? &&
               s.written[s.taken].head.sid !in s.table && s.written[s.taken].head.sid != last
            then s'.forcedCloses == s.forcedCloses + [s.written[s.taken].head.sid]
            else s'.forcedCloses == s.forcedCloses
  {
    EveryRunKeepsForced(schedule);
    EveryRunKeepsInv(schedule);
    hide Run, Chunks;
  }

  // ---- Stream ids ----

  /** The n-th id of `NextID`: a 32-bit counter stepping by two, from 1 at clients and from 2 at servers. */
  function NextID(isClient: bool, n: nat): Sid {
    ((if isClient then 1 else 2) + 2 * n) % 0x1_0000_0000
  }

  /** Ids of the two kinds never meet, and an id comes back only after 2^31 others. */
  lemma IdsAreFresh(c: bool, m: nat, d: bool, n: nat)
    ensures NextID(c, m) == NextID(d, n) <==> c == d && m % 0x8000_0000 == n % 0x8000_0000
    ensures NextID(c, m) % 2 == (if c then 1 else 0) && NextID(c, 0) == (if c then 1 else 2)
  {
    hide NextID;
    NextIDValue(c, m);
    NextIDValue(d, n);
    NextIDValue(c, 0);
  }

  lemma NextIDValue(c: bool, n: nat)
    ensures var r := n % 0x8000_0000;
            NextID(c, n) == if c then 1 + 2 * r else if r == 0x7fff_ffff then 0 else 2 + 2 * r
  {
    var q, r := n / 0x8000_0000, n % 0x8000_0000;
    var start := if c then 1 else 2;
    assert start + 2 * n == 0x1_0000_0000 * q + (start + 2 * r);
  }

  lemma RegisteredIsOpen(s: State, sid: Sid)
    requires Inv(s) && sid in s.table
    ensures sid in s.streams && StreamOk(s.streams[sid]) && !s.streams[sid].closed
    ensures s.loop.Free? ==> s.streams[sid].parked.None?
  {
    assert StreamInv(s, sid);
  }

  // ---- The object ----

  /** The stream table and the read loop, one method per stretch between suspensions; each is proved to be the step of the
      machine above. */
  class Endpoint {
    var written: seq<Event>
    var taken: nat
    var loop: Loop
    var streams: map<Sid, Stream>
    var table: set<Sid>
    var lastUnmatched: Sid
    var forcedCloses: seq<Sid>

    ghost function View(): State
      reads this
    {
      State(written, taken, loop, streams, table, lastUnmatched, forcedCloses)
    }

    constructor ()
      ensures View() == INIT && Inv(View())
    {
      written, taken, loop, streams, table := [], 0, Free, map[], {};
      lastUnmatched, forcedCloses := 0, [];
    }

    /** `MuxStream::New`; `missed` is what went by before. */
    method New(sid: Sid)
      requires Inv(View()) && sid !in streams
      modifies this
      ensures Inv(View()) && View() == Apply(old(View()), Register(sid))
    {
      StepKeepsInv(View(), Register(sid));
      var missed := |Chunks(written[..taken], sid)|;
      streams := streams[sid := Stream(false, [], None, NoRead, [], missed)];
      table := table + {sid};
    }

    /** The next event of the connection, up to the first suspension. */
    method ProcessReadEvent()
      requires Inv(View()) && loop.Free? && taken < |written|
      modifies this
      ensures Inv(View()) && View() == Apply(old(View()), Dispatch)
    {
      hide Flow, Chunks, Offer, CloseAt, Inv;
      StepKeepsInv(View(), Dispatch);
      var e := written[taken];
      if e.head.sid in table {
        RegisteredIsOpen(View(), e.head.sid);
      }
      taken := taken + 1;
      var sid := e.head.sid;
      if e.body.StreamClose? {
        if sid in table {
          CloseNow(sid);
        }
      } else if e.body.StreamChunk? {
        if sid !in table {
          if lastUnmatched != sid {
            lastUnmatched := sid;
            forcedCloses := forcedCloses + [sid];
          }
        } else {
          OfferNow(sid, e.body.data);
        }
      }
    }

    /** `Offer`: an open stream has taken in one more chunk, at the end; the read loop parks with it exactly if a chunk is
        already buffered. A closed stream takes nothing. */
    method OfferNow(sid: Sid, data: Chunk)
      requires sid in streams && StreamOk(streams[sid]) && streams[sid].parked.None?
      modifies this`streams, this`loop
      ensures streams == old(streams)[sid := Offer(old(streams[sid]), data)] && StreamOk(streams[sid])
      ensures Flow(streams[sid]) == Flow(old(streams[sid])) + if old(streams[sid].closed) then [] else [data]
      ensures streams[sid].got == old(streams[sid].got)
      ensures !streams[sid].read.ReadParked?
      ensures streams[sid].parked.Some? <==> !old(streams[sid].closed) && old(streams[sid].queue) != []
      ensures loop == if streams[sid].parked.Some? then Offering(sid) else Offered
    {
      var st := streams[sid];
      if !st.closed {
        OfferFlow(st, data);
        if st.read.ReadParked? {
          st := st.(read := ReadReady(data));
        } else if |st.queue| < 1 {
          st := st.(queue := st.queue + [data]);
        } else {
          st := st.(parked := Some(data));
        }
      }
      streams := streams[sid := st];
      loop := if st.parked.Some? then Offering(sid) else Offered;
    }

    /** `Close` of the data channel: the stream is out of the table and stays so; no Read and no read loop is left parked
        at it; and it keeps what a Read was already given, a prefix of what it took in. */
    method CloseNow(sid: Sid)
      requires sid in streams && StreamOk(streams[sid]) && (streams[sid].closed ==> sid !in table)
      modifies this`streams, this`table, this`loop
      ensures View() == CloseAt(old(View()), sid)
      ensures streams[sid].closed && sid !in table && StreamOk(streams[sid])
      ensures !streams[sid].read.ReadParked? && streams[sid].parked.None? && loop != Offering(sid)
      ensures Flow(streams[sid]) <= Flow(old(streams[sid])) && streams[sid].got == old(streams[sid].got)
      ensures old(streams[sid].read.ReadReady?) ==> streams[sid].read == old(streams[sid].read)
    {
      ShutFlow(streams[sid]);
      var st := streams[sid];
      if !st.closed {
        table := table - {sid};
        st := st.(closed := true, parked := None);
        if st.read.ReadParked? {
          st := st.(read := ReadFailed);
        }
      }
      streams := streams[sid := st];
      if loop == Offering(sid) {
        loop := Offered;
      }
    }

    /** `Read` up to its suspension: it takes the buffered chunk, and a parked read loop then refills the buffer. */
    method Read(sid: Sid)
      requires Inv(View()) && Enabled(View(), ReadBegins(sid))
      modifies this
      ensures Inv(View()) && View() == Apply(old(View()), ReadBegins(sid))
    {
      StepKeepsInv(View(), ReadBegins(sid));
      var st := streams[sid];
      if st.closed {
        return;
      }
      if st.queue != [] {
        st := st.(read := ReadReady(st.queue[0]), queue := st.queue[1..]);
        if st.parked.Some? {
          st := st.(queue := st.queue + [st.parked.value], parked := None);
          loop := Offered;
        }
      } else {
        st := st.(read := ReadParked);
      }
      streams := streams[sid := st];
    }

    /** The rest of `Read`: the chunk, or None with an error. */
    method ResumeRead(sid: Sid) returns (chunk: Option<Chunk>)
      requires Inv(View()) && Enabled(View(), ReadEnds(sid))
      modifies this
      ensures Inv(View()) && View() == Apply(old(View()), ReadEnds(sid))
      ensures streams[sid].got == old(streams[sid].got) + if chunk.Some? then [chunk.value] else []
    {
      StepKeepsInv(View(), ReadEnds(sid));
      var st := streams[sid];
      if st.read.ReadReady? {
        chunk := Some(st.read.chunk);
        st := st.(got := st.got + [st.read.chunk], read := NoRead);
      } else {
        chunk := None;
        st := st.(read := NoRead);
      }
      streams := streams[sid := st];
    }
  }
}
