/** The two ends of a stream and the close events between them (snova/mux/mux_stream.cc, Close;
    snova/mux/mux_connection.cc, the close and chunk cases of ProcessReadEvent). */
module CloseExchange {
  import C = StreamClose

  type Id = C.Id

  datatype Side = Here | There

  function Other(side: Side): Side {
    if side.Here? then There else Here
  }

  /** One end: whether it has its stream object, and has it in its table; the object; the close events on their way to it,
      and how many of them have arrived; and how many closes it sent because a chunk came for a stream not in its table. */
  datatype End = End(created: bool, listed: bool, stream: C.State, coming: nat, arrived: nat, forced: nat)

  datatype Pair = Pair(here: End, there: End) {
    function At(side: Side): End { if side.Here? then here else there }
    function With(side: Side, e: End): Pair { if side.Here? then this.(here := e) else this.(there := e) }
  }

  const NEW: End := End(false, false, C.INIT, 0, 0, 0)
  const START: Pair := Pair(NEW, NEW)

  datatype Step =
    | Register(side: Side)
    | Unregister(side: Side)         // a relay that ends takes its stream out of the table
    | Local(side: Side, t: C.Step)   // a step of a coroutine on the stream object
    | ForceClose(side: Side)         // a chunk was dispatched and no stream found
    | Arrive(side: Side)             // a close event is dispatched

  /** What MuxStream::Get finds. */
  predicate InTable(e: End) {
    e.listed && !e.stream.closed
  }

  /** Close by the remote end is only called when a close event arrives. */
  predicate Enabled(p: Pair, t: Step) {
    match t
    case Register(side) => !p.At(side).created
    case Unregister(side) => p.At(side).listed
    case Local(side, c) => p.At(side).created && !(c.CallClose? && c.byRemote)
    case ForceClose(side) => !InTable(p.At(side))
    case Arrive(side) => p.At(side).coming > 0
  }

  /** The closes that the stream object and the read loop of an end have put on the connection. */
  function Sent(e: End): nat {
    e.stream.closesDelivered + e.forced
  }

  /** The end, and what it has just put on the connection. */
  function Move(e: End, t: Step): End {
    match t
    case Register(_) => e.(created := true, listed := true)
    case Unregister(_) => e.(listed := false)
    case Local(_, c) => e.(stream := C.Apply(e.stream, c))
    case ForceClose(_) => e.(forced := e.forced + 1)
    case Arrive(_) =>
      var e1 := e.(coming := if e.coming > 0 then e.coming - 1 else 0, arrived := e.arrived + 1);
      if InTable(e) then e1.(stream := C.RemoteClose(e.stream)) else e1
  }

  function Apply(p: Pair, t: Step): Pair {
    if !Enabled(p, t) then p
    else
      var e := p.At(t.side);
      var e' := Move(e, t);
      var o := p.At(Other(t.side));
      p.With(t.side, e').With(Other(t.side), if Sent(e') > Sent(e) then o.(coming := o.coming + 1) else o)
  }

  function Run(schedule: seq<Step>): Pair {
    if schedule == [] then START
    else var n := |schedule| - 1; Apply(Run(schedule[..n]), schedule[n])
  }

  // ---- What every step keeps ----

  /** One end, given what the other has sent: the closes sent to it are on their way or have arrived, and it was closed by
      the remote end only if one has arrived. */
  predicate EndInv(e: End, sentToIt: nat) {
    && C.Inv(e.stream)
    && sentToIt == e.coming + e.arrived
    && (e.stream.byRemote ==> e.arrived >= 1)
  }

  predicate Inv(p: Pair) {
    EndInv(p.here, Sent(p.there)) && EndInv(p.there, Sent(p.here))
  }

  /** A step of the object sends at most one close, and the remote end's close is not its doing. */
  lemma LocalStep(s: C.State, c: C.Step)
    requires C.Inv(s) && !(c.CallClose? && c.byRemote)
    ensures var s' := C.Apply(s, c);
            C.Inv(s') && s.closesDelivered <= s'.closesDelivered <= s.closesDelivered + 1 && s'.byRemote == s.byRemote
  {
    C.StepKeepsInv(s, c);
    hide C.Inv;
  }

  lemma MoveKeepsInv(e: End, t: Step, sentToIt: nat)
    requires EndInv(e, sentToIt) && (t.Local? ==> !(t.t.CallClose? && t.t.byRemote)) && (t.Arrive? ==> e.coming > 0)
    ensures EndInv(Move(e, t), sentToIt) && Sent(e) <= Sent(Move(e, t)) <= Sent(e) + 1
  {
    hide C.Inv, C.Apply;
    if t.Local? {
      LocalStep(e.stream, t.t);
    } else if t.Arrive? && InTable(e) {
      C.RemoteCloseKeepsInv(e.stream);
    }
  }

  lemma StepKeepsInv(p: Pair, t: Step)
    requires Inv(p)
    ensures Inv(Apply(p, t))
  {
    hide Move, EndInv, Sent;
    if Enabled(p, t) {
      var e, o := p.At(t.side), p.At(Other(t.side));
      MoveKeepsInv(e, t, Sent(o));
      CloseSetsOut(o, Sent(e), Sent(Move(e, t)));
    }
  }

  lemma CloseSetsOut(o: End, sent: nat, sent': nat)
    requires EndInv(o, sent) && sent <= sent' <= sent + 1
    ensures var o' := if sent' > sent then o.(coming := o.coming + 1) else o; EndInv(o', sent') && Sent(o') == Sent(o)
  {
    hide C.Inv;
  }

  lemma {:induction false} EveryRunKeepsInv(schedule: seq<Step>)
    ensures Inv(Run(schedule))
  {
    hide Inv, Apply, C.Inv;
    if schedule == [] {
      C.InitIsInv();
      FreshEnds(C.INIT);
    } else {
      var n := |schedule| - 1;
      EveryRunKeepsInv(schedule[..n]);
      StepKeepsInv(Run(schedule[..n]), schedule[n]);
    }
  }

  lemma FreshEnds(s: C.State)
    requires C.Inv(s) && s.closesDelivered == 0 && !s.byRemote
    ensures Inv(Pair(End(false, false, s, 0, 0, 0), End(false, false, s, 0, 0, 0)))
  {
    hide C.Inv;
  }

  // ---- The promises ----

  /** No close is lost or invented: what one end has sent is on its way to the other or has arrived there. */
  lemma ClosesAreConserved(schedule: seq<Step>, side: Side)
    ensures var p := Run(schedule);
            Sent(p.At(Other(side))) == p.At(side).coming + p.At(side).arrived
  {
    EveryRunKeepsInv(schedule);
  }

  /** Closes are not answered with closes. The two stream objects send at most two; an end that was closed by the other has
      sent none; and unless the other's read loop forced it, the other's object has sent exactly one, which has arrived. */
  lemma NoPingPong(schedule: seq<Step>, side: Side)
    ensures var p := Run(schedule); var e, o := p.At(side), p.At(Other(side));
            && e.stream.closesDelivered + o.stream.closesDelivered <= 2
            && (e.stream.byRemote ==>
                  && e.stream.closesDelivered == 0 && Sent(o) >= 1 && e.arrived >= 1
                  && (o.forced == 0 ==> o.stream.closesDelivered == 1 && e.arrived == 1 && e.coming == 0)
                  && (o.forced == 0 ==> !o.stream.byRemote))
  {
    EveryRunKeepsInv(schedule);
    hide Run;
    var p := Run(schedule);
    ObjectSends(p.here.stream);
    ObjectSends(p.there.stream);
  }

  lemma ObjectSends(s: C.State)
    requires C.Inv(s)
    ensures s.closesDelivered <= 1 && (s.byRemote ==> s.closesDelivered == 0)
  {
  }

  /** The arrival of a close puts nothing on the connection, at either end. */
  lemma ArrivalSendsNothing(schedule: seq<Step>, side: Side)
    requires Run(schedule).At(side).coming > 0
    ensures var p := Run(schedule); var q := Apply(p, Arrive(side));
            && Sent(q.here) == Sent(p.here) && Sent(q.there) == Sent(p.there)
            && q.At(side).coming == p.At(side).coming - 1 && q.At(Other(side)) == p.At(Other(side))
            && (InTable(p.At(side)) ==> q.At(side).stream.closed && q.At(side).stream.byRemote)
  {
  }

  /** What does put a close on the connection, one at a time: a chunk for a stream that is not in the table, and an accepted
      close event of the stream object. */
  lemma SendsExactlyWhen(schedule: seq<Step>, t: Step)
    requires Enabled(Run(schedule), t)
    ensures var p := Run(schedule); var q := Apply(p, t); var s := p.At(t.side).stream;
            var sends := t.ForceClose? ||
                         (t.Local? && t.t.Attempt? && t.t.ok && C.Enabled(s, t.t) && s.tasks[t.t.id].isClose);
            && Sent(q.At(t.side)) == Sent(p.At(t.side)) + (if sends then 1 else 0)
            && q.At(Other(t.side)).coming == p.At(Other(t.side)).coming + (if sends then 1 else 0)
  {
  }

  /** A close that arrives after the stream was taken out of the table changes nothing of the stream. */
  lemma UnregisteredIgnoresCloses(schedule: seq<Step>, side: Side)
    requires Enabled(Run(schedule), Unregister(side))
    ensures var p := Apply(Run(schedule), Unregister(side));
            !InTable(p.At(side)) && Apply(p, Arrive(side)).At(side).stream == Run(schedule).At(side).stream
  {
  }

  /** What the remote end has closed never sends a close, whatever happens afterwards. */
  lemma {:induction false} RemotelyClosedStaysSilent(schedule: seq<Step>, more: seq<Step>, side: Side)
    requires Run(schedule).At(side).stream.byRemote
    ensures var e := Run(schedule + more).At(side).stream; e.byRemote && e.closed && e.closesDelivered == 0
    decreases |more|
  {
    EveryRunKeepsInv(schedule + more);
    hide Run, C.Apply, C.Inv;
    if more == [] {
      assert schedule + more == schedule;
    } else {
      var n := |more| - 1;
      RemotelyClosedStaysSilent(schedule, more[..n], side);
      EveryRunKeepsInv(schedule + more[..n]);
      RunAppend(schedule + more[..n], more[n]);
      assert schedule + more[..n] + [more[n]] == schedule + more;
      var p := Run(schedule + more[..n]);
      if Enabled(p, more[n]) && more[n].Local? {
        LocalStep(p.At(more[n].side).stream, more[n].t);
      }
    }
    var p := Run(schedule + more);
    ByRemoteIsClosed(p.At(side).stream);
  }

  lemma ByRemoteIsClosed(s: C.State)
    requires C.Inv(s)
    ensures s.byRemote ==> s.closed && s.closesDelivered == 0
  {
  }

  lemma RunAppend(schedule: seq<Step>, t: Step)
    ensures Run(schedule + [t]) == Apply(Run(schedule), t)
  {
    assert (schedule + [t])[..|schedule|] == schedule;
  }

  /** Both halves happen: a run in which the close of one end closes the other for good, with nothing sent back. */
  lemma OneCloseExample()
    ensures var p := Run([Register(Here), Register(There), Local(Here, C.CallClose(0, false)), Local(Here, C.Attempt(0, true)),
                          Arrive(There)]);
            && p.here.stream.closed && p.there.stream.closed && p.there.stream.byRemote
            && Sent(p.here) == 1 && Sent(p.there) == 0 && p.here.coming == p.there.coming == 0
  {
    hide Run, Apply;
    var run := [Register(Here), Register(There), Local(Here, C.CallClose(0, false)), Local(Here, C.Attempt(0, true)),
                Arrive(There)];
    RunStep(run, 1);
    RunStep(run, 2);
    RunStep(run, 3);
    RunStep(run, 4);
    RunStep(run, 5);
    RunNothing();
    assert run[..0] == [] && run[..5] == run;
    BothRegister();
    CloseCrosses(Pair(NEW.(created := true, listed := true), NEW.(created := true, listed := true)), 0);
  }

  lemma BothRegister()
    ensures Apply(Apply(START, Register(Here)), Register(There)) == Pair(NEW.(created := true, listed := true), NEW.(created := true, listed := true))
  {
  }

  /** A close that is written at once crosses over. */
  lemma CloseCrosses(p: Pair, id: Id)
    requires InTable(p.here) && InTable(p.there) && p.here.created && p.here.coming == p.there.coming == 0 && id !in p.here.stream.tasks
    ensures var q := Apply(Apply(p, Local(Here, C.CallClose(id, false))), Local(Here, C.Attempt(id, true)));
            var r := Apply(q, Arrive(There));
            && r.here.stream.closed && r.there.stream.closed && r.there.stream.byRemote
            && Sent(r.here) == Sent(p.here) + 1 && Sent(r.there) == Sent(p.there) && r.here.coming == r.there.coming == 0
  {
    var p1 := Apply(p, Local(Here, C.CallClose(id, false)));
    assert p1.here.stream.tasks[id] == C.Task(true, C.TRIES, 0) && p1.there == p.there && p1.here.coming == 0;
    var q := Apply(p1, Local(Here, C.Attempt(id, true)));
    assert q.there.coming == 1 && q.here.stream.closed && q.here.coming == 0;
  }

  lemma RunStep(run: seq<Step>, n: nat)
    requires 1 <= n <= |run|
    ensures Run(run[..n]) == Apply(Run(run[..n - 1]), run[n - 1])
  {
    assert run[..n][..n - 1] == run[..n - 1];
  }

  lemma RunNothing()
    ensures Run([]) == START
  {
  }
}
