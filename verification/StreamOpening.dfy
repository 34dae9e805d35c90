/** A stream at the end that opens it: registered before its open event is written (snova/server/relay.cc, do_relay), and
    written to by the peer only after that event was dispatched there (snova/mux/mux_connection.cc, ProcessReadEvent). */
module StreamOpening {
  import opened Wire
  import opened MuxEvents
  import S = StreamDelivery

  type Sid = S.Sid

  /** The end that opens streams and the end that relays for them. What one writes is `written` at the other. */
  datatype Pair = Pair(opener: S.State, acceptor: S.State)

  datatype Step =
    | AtOpener(t: S.Step)
    | AtAcceptor(t: S.Step)
    | OpenerWrites(e: Event)
    | AcceptorWrites(e: Event)

  predicate IsOpenOf(e: Event, sid: Sid) {
    e.body.StreamOpen? && e.head.sid == sid
  }

  /** The open event is among the first `n`. */
  predicate OpenIn(es: seq<Event>, n: nat, sid: Sid) {
    exists i :: 0 <= i < |es| && i < n && IsOpenOf(es[i], sid)
  }

  /** The opener makes a stream before it writes its open event; the acceptor spawns the relay that registers the stream
      and writes to it when it has dispatched that event. */
  predicate Enabled(p: Pair, t: Step) {
    match t
    case AtOpener(c) => !c.PeerWrites?
    case AtAcceptor(c) => !c.PeerWrites? && (c.Register? ==> OpenIn(p.acceptor.written, p.acceptor.taken, c.sid))
    case OpenerWrites(e) => e.body.StreamOpen? || e.body.StreamChunk? ==> e.head.sid in p.opener.streams
    case AcceptorWrites(e) => e.body.StreamChunk? ==> OpenIn(p.acceptor.written, p.acceptor.taken, e.head.sid)
  }

  function Apply(p: Pair, t: Step): Pair {
    if !Enabled(p, t) then p
    else
      match t
      case AtOpener(c) => p.(opener := S.Apply(p.opener, c))
      case AtAcceptor(c) => p.(acceptor := S.Apply(p.acceptor, c))
      case OpenerWrites(e) => p.(acceptor := S.Apply(p.acceptor, S.PeerWrites(e)))
      case AcceptorWrites(e) => p.(opener := S.Apply(p.opener, S.PeerWrites(e)))
  }

  function Run(schedule: seq<Step>): Pair {
    if schedule == [] then Pair(S.INIT, S.INIT)
    else var n := |schedule| - 1; Apply(Run(schedule[..n]), schedule[n])
  }

  /** Nobody knows of a stream before it is registered at the opener, so it misses nothing. */
  predicate Inv(p: Pair, sid: Sid) {
    && S.Inv(p.opener) && S.Inv(p.acceptor)
    && (OpenIn(p.acceptor.written, |p.acceptor.written|, sid) ==> sid in p.opener.streams)
    && (S.Chunks(p.opener.written, sid) != [] ==> sid in p.opener.streams)
    && (sid in p.opener.streams ==> p.opener.streams[sid].missed == 0)
  }

  /** A step of the opener's own. */
  lemma OpenerStep(s: S.State, t: S.Step, sid: Sid)
    requires S.Inv(s) && !t.PeerWrites?
    requires S.Chunks(s.written, sid) != [] ==> sid in s.streams
    requires sid in s.streams ==> s.streams[sid].missed == 0
    ensures var s' := S.Apply(s, t);
            && S.Inv(s') && s'.written == s.written && (sid in s.streams ==> sid in s'.streams)
            && (sid in s'.streams ==> s'.streams[sid].missed == 0)
  {
    S.StepKeepsInv(s, t);
    if sid in s.streams {
      S.MissedIsFixed(s, t, sid);
    } else {
      S.ChunksOfPrefix(s.written, s.taken, sid);
      hide S.Chunks, S.StreamInv;
    }
  }

  /** Of the written events, a step of an endpoint's own adds none and a write of its peer one. */
  lemma WrittenAfter(s: S.State, t: S.Step)
    ensures S.Apply(s, t).written == if t.PeerWrites? then s.written + [t.e] else s.written
  {
    hide S.Chunks;
  }

  lemma StepKeepsInv(p: Pair, t: Step, sid: Sid)
    requires Inv(p, sid)
    ensures Inv(Apply(p, t), sid)
  {
    hide S.Inv, S.Apply, S.Chunks;
    if Enabled(p, t) {
      match t
      case AtOpener(c) =>
        OpenerStep(p.opener, c, sid);
      case AtAcceptor(c) =>
        S.StepKeepsInv(p.acceptor, c);
        WrittenAfter(p.acceptor, c);
      case OpenerWrites(e) =>
        S.StepKeepsInv(p.acceptor, S.PeerWrites(e));
        WrittenAfter(p.acceptor, S.PeerWrites(e));
      case AcceptorWrites(e) =>
        AcceptorWriteKeepsInv(p, e, sid);
    }
  }

  lemma AcceptorWriteKeepsInv(p: Pair, e: Event, sid: Sid)
    requires Inv(p, sid) && Enabled(p, AcceptorWrites(e))
    ensures Inv(Apply(p, AcceptorWrites(e)), sid)
  {
    hide S.Inv, S.Chunks;
    S.StepKeepsInv(p.opener, S.PeerWrites(e));
    S.ChunksAppend(p.opener.written, e, sid);
  }

  lemma {:induction false} EveryRunKeepsInv(schedule: seq<Step>, sid: Sid)
    ensures Inv(Run(schedule), sid)
  {
    if schedule == [] {
      S.EveryRunKeepsInv([]);
    } else {
      var n := |schedule| - 1;
      EveryRunKeepsInv(schedule[..n], sid);
      StepKeepsInv(Run(schedule[..n]), schedule[n], sid);
    }
  }

  /** In every run of the two ends, a stream of the opener misses nothing: its Reads return a prefix of all the chunks the
      peer has written to it. */
  lemma OpenerMissesNothing(schedule: seq<Step>, sid: Sid)
    requires sid in Run(schedule).opener.streams
    ensures var s := Run(schedule).opener;
            s.streams[sid].missed == 0 && s.streams[sid].got <= S.Chunks(s.written, sid)
  {
    EveryRunKeepsInv(schedule, sid);
    S.ReadsOfState(Run(schedule).opener, sid);
  }
}
