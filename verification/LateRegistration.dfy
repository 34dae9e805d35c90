/** Exactly when the Reads of a stream can go wrong because it was registered late
    (snova/mux/mux_connection.cc, ProcessReadEvent; snova/mux/mux_stream.cc). */
module LateRegistration {
  import opened Wire
  import opened MuxEvents
  import opened StreamDelivery

  // ---- Runs from a given state ----

  function RunFrom(s: State, steps: seq<Step>): State
    decreases |steps|
  {
    if steps == [] then s else RunFrom(Apply(s, steps[0]), steps[1..])
  }

  lemma {:induction false} RunContinues(schedule: seq<Step>, steps: seq<Step>)
    ensures Run(schedule + steps) == RunFrom(Run(schedule), steps)
    decreases |steps|
  {
    hide Apply;
    if steps == [] {
      assert schedule + steps == schedule;
    } else {
      var t := steps[0];
      assert (schedule + [t])[..|schedule|] == schedule;
      RunContinues(schedule + [t], steps[1..]);
      assert schedule + [t] + steps[1..] == schedule + steps;
    }
  }

  lemma {:induction false} RunFromTwice(s: State, a: seq<Step>, b: seq<Step>)
    ensures RunFrom(s, a + b) == RunFrom(RunFrom(s, a), b)
    decreases |a|
  {
    hide Apply;
    if a == [] {
      assert a + b == b;
    } else {
      assert (a + b)[0] == a[0] && (a + b)[1..] == a[1..] + b;
      RunFromTwice(Apply(s, a[0]), a[1..], b);
    }
  }

  lemma OneStep(s: State, t: Step)
    ensures RunFrom(s, [t]) == Apply(s, t)
  {
    hide Apply;
    assert [t][1..] == [];
    assert RunFrom(Apply(s, t), []) == Apply(s, t);
  }

  // ---- Chunks dispatched too early ----

  /** The promise a user of a stream expects. */
  predicate PrefixHolds(s: State, sid: Sid) {
    sid in s.streams && s.streams[sid].got <= Chunks(s.written, sid)
  }

  predicate IsChunkOf(e: Event, sid: Sid) {
    e.body.StreamChunk? && e.head.sid == sid
  }

  predicate IsCloseOf(e: Event, sid: Sid) {
    e.body.StreamClose? && e.head.sid == sid
  }

  predicate TakesChunk(s: State, t: Step, sid: Sid) {
    t.Dispatch? && Enabled(s, t) && IsChunkOf(s.written[s.taken], sid)
  }

  /** Some step of the schedule dispatches a chunk of a stream that is not registered yet. */
  predicate Early(schedule: seq<Step>, sid: Sid) {
    exists i :: 0 <= i < |schedule| && EarlyAt(schedule, i, sid)
  }

  predicate EarlyAt(schedule: seq<Step>, i: nat, sid: Sid)
    requires i < |schedule|
  {
    sid !in Run(schedule[..i]).streams && TakesChunk(Run(schedule[..i]), schedule[i], sid)
  }

  lemma EarlyGrows(schedule: seq<Step>, sid: Sid)
    requires schedule != []
    ensures var n := |schedule| - 1;
            Early(schedule, sid) <==> Early(schedule[..n], sid) || EarlyAt(schedule, n, sid)
  {
    hide Run, TakesChunk;
    var n := |schedule| - 1;
    var front := schedule[..n];
    forall i | 0 <= i < n
      ensures EarlyAt(schedule, i, sid) <==> EarlyAt(front, i, sid)
    {
      assert front[..i] == schedule[..i];
    }
  }

  lemma DispatchedGrows(s: State, t: Step, sid: Sid)
    requires Inv(s)
    ensures var s' := Apply(s, t);
            s'.taken <= |s'.written| &&
            |Chunks(s'.written[..s'.taken], sid)| ==
            |Chunks(s.written[..s.taken], sid)| + if TakesChunk(s, t, sid) then 1 else 0
  {
    hide Chunks, StreamInv;
    StepKeepsInv(s, t);
    if t.Dispatch? && Enabled(s, t) {
      assert s.written[..s.taken + 1] == s.written[..s.taken] + [s.written[s.taken]];
      ChunksAppend(s.written[..s.taken], s.written[s.taken], sid);
    } else {
      assert Apply(s, t).written[..s.taken] == s.written[..s.taken];
    }
  }

  /** A stream has missed chunks exactly if some were dispatched before its registration. */
  lemma {:induction false} MissedExactlyWhenEarly(schedule: seq<Step>, sid: Sid)
    ensures var s := Run(schedule);
            && s.taken <= |s.written|
            && (sid in s.streams ==> (s.streams[sid].missed > 0 <==> Early(schedule, sid)))
            && (sid !in s.streams ==> (Chunks(s.written[..s.taken], sid) != [] <==> Early(schedule, sid)))
  {
    hide Inv, Chunks;
    if schedule == [] {
      NoChunks(sid);
    } else {
      var n := |schedule| - 1;
      var s, t := Run(schedule[..n]), schedule[n];
      MissedExactlyWhenEarly(schedule[..n], sid);
      EveryRunKeepsInv(schedule[..n]);
      EarlyGrows(schedule, sid);
      DispatchedGrows(s, t, sid);
      hide Run, Early, TakesChunk;
      assert Run(schedule) == Apply(s, t) by { RunIsApply(schedule); }
      if sid in s.streams {
        MissedIsFixed(s, t, sid);
      } else if sid in Apply(s, t).streams {
        RegistersNow(s, t, sid);
      } else {
        assert EarlyAt(schedule, n, sid) <==> TakesChunk(s, t, sid);
      }
    }
  }

  lemma RunIsApply(schedule: seq<Step>)
    requires schedule != []
    ensures Run(schedule) == Apply(Run(schedule[..|schedule| - 1]), schedule[|schedule| - 1])
  {
  }

  /** Only registration makes a stream, and it does not dispatch. */
  lemma RegistersNow(s: State, t: Step, sid: Sid)
    requires Inv(s) && sid !in s.streams && sid in Apply(s, t).streams
    ensures t == Register(sid) && !TakesChunk(s, t, sid)
    ensures Apply(s, t).streams[sid].missed == |Chunks(s.written[..s.taken], sid)|
  {
    hide Chunks, StreamInv;
  }

  // ---- Reading everything that is under way ----

  /** What a continuation made of reads and dispatches leaves as it is. */
  predicate Settles(s: State, s': State, sid: Sid) {
    && Inv(s') && s'.written == s.written
    && sid in s.streams && sid in s'.streams && s'.streams[sid].missed == s.streams[sid].missed
    && sid in s'.table
  }

  /** One step that is no close and no unregistration. */
  lemma QuietStep(s: State, t: Step, sid: Sid)
    requires Inv(s) && sid in s.table
    requires t.LoopResumes? || t.ReadBegins? || t.ReadEnds? ||
             (t.Dispatch? && Enabled(s, t) && !IsCloseOf(s.written[s.taken], sid))
    ensures Settles(s, Apply(s, t), sid)
  {
    hide Chunks, StreamOk, InOrder;
    StepKeepsInv(s, t);
    MissedIsFixed(s, t, sid);
  }

  /** The read loop is brought to its next event: the stream it is parked at is read. */
  lemma FreeLoop(s: State, sid: Sid) returns (more: seq<Step>)
    requires Inv(s) && sid in s.table
    ensures var s' := RunFrom(s, more); Settles(s, s', sid) && s'.loop.Free? && s'.taken == s.taken
  {
    hide Chunks, InOrder, RunFrom;
    match s.loop
    case Free =>
      more := [];
      NoStep(s);
    case Offered =>
      more := [LoopResumes];
      OneStep(s, LoopResumes);
      QuietStep(s, LoopResumes, sid);
    case Offering(x) =>
      assert StreamInv(s, x);
      var first := if s.streams[x].read.NoRead? then ReadBegins(x) else ReadEnds(x);
      var s1 := Apply(s, first);
      QuietStep(s, first, sid);
      OneStep(s, first);
      if first.ReadBegins? {
        assert s1.loop.Offered?;
        QuietStep(s1, LoopResumes, sid);
        OneStep(s1, LoopResumes);
        more := [first] + [LoopResumes];
        RunFromTwice(s, [first], [LoopResumes]);
      } else {
        assert s1.loop == s.loop && s1.streams[x].read.NoRead?;
        var rest := FreeLoopAt(s1, x, sid);
        more := [first] + rest;
        RunFromTwice(s, [first], rest);
      }
  }

  lemma NoStep(s: State)
    ensures RunFrom(s, []) == s
  {
  }

  lemma FreeLoopAt(s: State, x: Sid, sid: Sid) returns (more: seq<Step>)
    requires Inv(s) && sid in s.table && s.loop == Offering(x) && s.streams[x].read.NoRead?
    ensures var s' := RunFrom(s, more); Settles(s, s', sid) && s'.loop.Free? && s'.taken == s.taken
  {
    hide Chunks, InOrder, RunFrom;
    assert StreamInv(s, x);
    var s1 := Apply(s, ReadBegins(x));
    QuietStep(s, ReadBegins(x), sid);
    OneStep(s, ReadBegins(x));
    assert s1.loop.Offered?;
    QuietStep(s1, LoopResumes, sid);
    OneStep(s1, LoopResumes);
    more := [ReadBegins(x)] + [LoopResumes];
    RunFromTwice(s, [ReadBegins(x)], [LoopResumes]);
  }

  predicate NoCloseIn(es: seq<Event>, from: nat, to: nat, sid: Sid)
    requires to <= |es|
  {
    forall i :: from <= i < to ==> !IsCloseOf(es[i], sid)
  }

  /** All events up to the n-th are dispatched. */
  lemma {:induction false} DispatchUpTo(s: State, n: nat, sid: Sid) returns (more: seq<Step>)
    requires Inv(s) && sid in s.table && s.taken <= n <= |s.written| && NoCloseIn(s.written, s.taken, n, sid)
    ensures var s' := RunFrom(s, more); Settles(s, s', sid) && s'.taken == n
    decreases n - s.taken
  {
    hide Chunks, StreamInv, RunFrom;
    if s.taken == n {
      more := [];
      NoStep(s);
    } else {
      var free := FreeLoop(s, sid);
      var s1 := RunFrom(s, free);
      QuietStep(s1, Dispatch, sid);
      OneStep(s1, Dispatch);
      var s2 := Apply(s1, Dispatch);
      assert s2.taken == s.taken + 1;
      var rest := DispatchUpTo(s2, n, sid);
      more := free + ([Dispatch] + rest);
      RunFromTwice(s, free, [Dispatch] + rest);
      RunFromTwice(s1, [Dispatch], rest);
    }
  }

  function Unread(st: Stream): nat {
    2 * |st.queue| + 2 * (if st.parked.Some? then 1 else 0) + if st.read.ReadReady? || st.read.ReadFailed? then 1 else 0
  }

  /** All that the stream has taken in is read. */
  lemma {:induction false} ReadAll(s: State, sid: Sid) returns (more: seq<Step>)
    requires Inv(s) && sid in s.table
    ensures var s' := RunFrom(s, more);
            && Settles(s, s', sid) && s'.taken == s.taken
            && s'.streams[sid].got == Chunks(s.written[..s.taken], sid)[s.streams[sid].missed..]
    decreases Unread(s.streams[sid])
  {
    hide Chunks, RunFrom;
    var st := s.streams[sid];
    assert StreamInv(s, sid);
    if Unread(st) == 0 {
      more := [];
      NoStep(s);
      assert st.got == Flow(st);
    } else {
      var t := if st.read.NoRead? then ReadBegins(sid) else ReadEnds(sid);
      assert !st.read.ReadParked? && !st.closed;
      QuietStep(s, t, sid);
      OneStep(s, t);
      var s1 := Apply(s, t);
      ReadProgress(s, sid, t);
      var rest := ReadAll(s1, sid);
      more := [t] + rest;
      RunFromTwice(s, [t], rest);
    }
  }

  lemma ReadProgress(s: State, sid: Sid, t: Step)
    requires Inv(s) && sid in s.table && Unread(s.streams[sid]) > 0
    requires t == if s.streams[sid].read.NoRead? then ReadBegins(sid) else ReadEnds(sid)
    ensures var s' := Apply(s, t); sid in s'.streams && s'.taken == s.taken && Unread(s'.streams[sid]) < Unread(s.streams[sid])
  {
    hide Chunks;
    assert StreamInv(s, sid);
  }

  // ---- The exact condition ----

  function ChunkEvent(sid: Sid, data: Chunk): Event
    requires |data| < 0x1_0000
  {
    Event(Head(sid, |data|, 5, Flags(false, 0)), StreamChunk(data))
  }

  /** A chunk that differs from the one given. */
  function Different(c: Chunk): (d: Chunk)
    ensures d != c && |d| <= 1
  {
    if c == [] then [0] else []
  }

  /** After a late registration the peer can always write a chunk that shows it: one that differs from the chunk `missed`
      places before it. */
  lemma Mismatch(c: seq<Chunk>, m: nat)
    requires 0 < m <= |c|
    ensures var d := Different(c[|c| - m]); !((c + [d])[m..] <= c + [d])
  {
    var d := Different(c[|c| - m]);
    var w := c + [d];
    assert w[m..][|c| - m] == d && w[|c| - m] == c[|c| - m];
  }

  lemma ExposesMissedChunk(s: State, sid: Sid) returns (more: seq<Step>)
    requires Inv(s) && sid in s.table && s.streams[sid].missed > 0
    requires NoCloseIn(s.written, s.taken, |s.written|, sid)
    ensures !PrefixHolds(RunFrom(s, more), sid)
  {
    hide Chunks, RunFrom, InOrder;
    var m := s.streams[sid].missed;
    var c := Chunks(s.written, sid);
    MissedFits(s, sid);
    var e := ChunkEvent(sid, Different(c[|c| - m]));
    var s1 := Apply(s, PeerWrites(e));
    StepKeepsInv(s, PeerWrites(e));
    OneStep(s, PeerWrites(e));
    assert s1.written == s.written + [e] && s1.table == s.table && s1.streams == s.streams;
    ChunksAppend(s.written, e, sid);
    var dispatch := DispatchUpTo(s1, |s1.written|, sid);
    var s2 := RunFrom(s1, dispatch);
    var drain := ReadAll(s2, sid);
    assert s2.written[..s2.taken] == s1.written;
    Mismatch(c, m);
    more := [PeerWrites(e)] + (dispatch + drain);
    RunFromTwice(s, [PeerWrites(e)], dispatch + drain);
    RunFromTwice(s1, dispatch, drain);
  }

  lemma MissedFits(s: State, sid: Sid)
    requires Inv(s) && sid in s.streams
    ensures s.streams[sid].missed <= |Chunks(s.written, sid)|
  {
    hide Chunks;
    assert StreamInv(s, sid);
    ChunksOfPrefix(s.written, s.taken, sid);
  }

  /** The exact condition. Take any reachable state in which the stream is registered and no close of it is under way. The
      Reads return a prefix of the peer's chunks whatever happens next if and only if no chunk of the stream was
      dispatched before it was registered. */
  lemma PrefixForeverExactlyWhen(schedule: seq<Step>, sid: Sid)
    requires var s := Run(schedule);
             sid in s.table && s.taken <= |s.written| && NoCloseIn(s.written, s.taken, |s.written|, sid)
    ensures (forall more: seq<Step> :: PrefixHolds(Run(schedule + more), sid)) <==> !Early(schedule, sid)
  {
    var s := Run(schedule);
    EveryRunKeepsInv(schedule);
    MissedExactlyWhenEarly(schedule, sid);
    hide Run, Early, RunFrom, PrefixHolds;
    assert sid in s.streams;
    if Early(schedule, sid) {
      var bad := ExposesMissedChunk(s, sid);
      RunContinues(schedule, bad);
      assert !PrefixHolds(Run(schedule + bad), sid);
    } else {
      forall more: seq<Step> ensures PrefixHolds(Run(schedule + more), sid) {
        PrefixAfter(schedule, more, sid);
      }
    }
  }

  /** A stream registered in time, in whatever state it is, never breaks the promise. */
  lemma PrefixAfter(schedule: seq<Step>, more: seq<Step>, sid: Sid)
    requires sid in Run(schedule).streams && Run(schedule).streams[sid].missed == 0
    ensures PrefixHolds(Run(schedule + more), sid)
  {
    EveryRunKeepsInv(schedule);
    RunContinues(schedule, more);
    MissedForever(Run(schedule), more, sid);
    ReadsArePrefixOfWrites(schedule + more, sid);
  }

  lemma {:induction false} MissedForever(s: State, more: seq<Step>, sid: Sid)
    requires Inv(s) && sid in s.streams
    ensures var s' := RunFrom(s, more); sid in s'.streams && s'.streams[sid].missed == s.streams[sid].missed
    decreases |more|
  {
    if more != [] {
      StepKeepsInv(s, more[0]);
      MissedIsFixed(s, more[0], sid);
      MissedForever(Apply(s, more[0]), more[1..], sid);
    }
  }

  /** A closed stream hands out at most the one chunk that a Read was already given, in every continuation. */
  lemma {:induction false} ClosedHandsOutOne(s: State, more: seq<Step>, sid: Sid)
    requires Inv(s) && sid in s.streams && s.streams[sid].closed
    ensures var s' := RunFrom(s, more); var st := s.streams[sid];
            && sid in s'.streams && s'.streams[sid].closed
            && st.got <= s'.streams[sid].got
            && s'.streams[sid].got <= st.got + if st.read.ReadReady? then [st.read.chunk] else []
    decreases |more|
  {
    if more != [] {
      var s1 := Apply(s, more[0]);
      StepKeepsInv(s, more[0]);
      ClosedStep(s, more[0], sid);
      ClosedHandsOutOne(s1, more[1..], sid);
    }
  }

  /** A stream that is closed at this end is out of the table and closed for good, and so hands out at most that chunk. */
  lemma LocalCloseIsFinal(s: State, more: seq<Step>, sid: Sid)
    requires Inv(s) && sid in s.streams
    ensures var s' := RunFrom(Apply(s, CloseStream(sid)), more); var st := s.streams[sid];
            && sid in s'.streams && s'.streams[sid].closed && sid !in s'.table
            && s'.streams[sid].got <= st.got + if st.read.ReadReady? then [st.read.chunk] else []
  {
    hide Inv, Flow, Apply, RunFrom;
    var s1 := Apply(s, CloseStream(sid));
    StepKeepsInv(s, CloseStream(sid));
    LocalCloseNow(s, sid);
    ClosedHandsOutOne(s1, more, sid);
    OutForGood(s1, more, sid);
  }

  lemma LocalCloseNow(s: State, sid: Sid)
    requires Inv(s) && sid in s.streams
    ensures var s1 := Apply(s, CloseStream(sid)); var st := s.streams[sid];
            && sid in s1.streams && s1.streams[sid].closed && sid !in s1.table && s1.streams[sid].got == st.got
            && (s1.streams[sid].read.ReadReady? ==> s1.streams[sid].read == st.read)
  {
    hide Chunks, Flow;
    assert StreamInv(s, sid);
  }

  /** A stream that is taken out of the table never comes back, and takes in nothing more. */
  lemma {:induction false} OutForGood(s: State, more: seq<Step>, sid: Sid)
    requires Inv(s) && sid in s.streams && sid !in s.table
    ensures var s' := RunFrom(s, more);
            sid in s'.streams && sid !in s'.table && Flow(s'.streams[sid]) <= Flow(s.streams[sid])
    decreases |more|
  {
    hide Apply, Flow;
    if more != [] {
      StepKeepsInv(s, more[0]);
      FlowStep(s, more[0], sid);
      OutForGood(Apply(s, more[0]), more[1..], sid);
    }
  }

  lemma UnregisterIsFinal(s: State, more: seq<Step>, sid: Sid)
    requires Inv(s) && sid in s.streams
    ensures var s' := RunFrom(Apply(s, Unregister(sid)), more);
            sid in s'.streams && sid !in s'.table && Flow(s'.streams[sid]) <= Flow(s.streams[sid])
  {
    hide Inv, Flow, Apply, RunFrom;
    StepKeepsInv(s, Unregister(sid));
    UnregisterNow(s, sid);
    OutForGood(Apply(s, Unregister(sid)), more, sid);
  }

  lemma UnregisterNow(s: State, sid: Sid)
    requires sid in s.streams
    ensures var s1 := Apply(s, Unregister(sid)); sid !in s1.table && s1.streams == s.streams
  {
    hide Chunks;
  }

  lemma ClosedStep(s: State, t: Step, sid: Sid)
    requires Inv(s) && sid in s.streams && s.streams[sid].closed
    ensures var s' := Apply(s, t);
            && sid in s'.streams && s'.streams[sid].closed
            && (s'.streams[sid] == s.streams[sid] ||
                (s.streams[sid].read.ReadReady? && !s'.streams[sid].read.ReadReady? &&
                 s'.streams[sid].got == s.streams[sid].got + [s.streams[sid].read.chunk]) ||
                (!s.streams[sid].read.ReadReady? && !s'.streams[sid].read.ReadReady? &&
                 s'.streams[sid].got == s.streams[sid].got))
  {
    hide Chunks, Flow;
    assert StreamInv(s, sid);
  }

  // ---- With a close under way ----

  /** A stream that is not registered takes in nothing more. */
  lemma FlowStep(s: State, t: Step, sid: Sid)
    requires Inv(s) && sid in s.streams
    ensures var s' := Apply(s, t);
            && sid in s'.streams && (sid !in s.table ==> sid !in s'.table)
            && (sid !in s'.table ==> Flow(s'.streams[sid]) <= Flow(s.streams[sid]))
  {
    hide Chunks, InOrder, Flow;
    if Enabled(s, t) {
      ShutFlow(s.streams[sid]);
      ReadFlow(s.streams[sid]);
      assert StreamInv(s, sid);
    }
  }

  /** The stream will not take in more than `limit`; the n-th event is its close. */
  predicate Limited(s: State, sid: Sid, n: nat, closing: Event, limit: seq<Chunk>) {
    && Inv(s) && sid in s.streams && n < |s.written| && s.written[n] == closing && IsCloseOf(closing, sid)
    && s.streams[sid].missed <= |Chunks(s.written[..n], sid)|
    && limit == Chunks(s.written[..n], sid)[s.streams[sid].missed..]
    && (sid in s.table ==> s.taken <= n)
    && Flow(s.streams[sid]) <= limit
  }

  lemma LimitedStep(s: State, t: Step, sid: Sid, n: nat, closing: Event, limit: seq<Chunk>)
    requires Limited(s, sid, n, closing, limit)
    ensures Limited(Apply(s, t), sid, n, closing, limit)
    ensures s.written <= Apply(s, t).written
  {
    hide Chunks, Flow, StreamOk;
    var s' := Apply(s, t);
    StepKeepsInv(s, t);
    FlowStep(s, t, sid);
    MissedIsFixed(s, t, sid);
    assert s'.written[..n] == s.written[..n];
    if sid in s'.table {
      assert StreamInv(s', sid) && StreamInv(s, sid);
      assert t.Dispatch? && Enabled(s, t) && s.taken == n ==> sid !in s'.table;
      ChunksOfPrefix(s'.written[..n], s'.taken, sid);
      assert s'.written[..n][..s'.taken] == s'.written[..s'.taken];
    }
  }

  lemma {:induction false} LimitedForever(s: State, more: seq<Step>, sid: Sid, n: nat, closing: Event, limit: seq<Chunk>)
    requires Limited(s, sid, n, closing, limit)
    ensures Limited(RunFrom(s, more), sid, n, closing, limit) && s.written <= RunFrom(s, more).written
    decreases |more|
  {
    hide Limited, Apply;
    if more != [] {
      LimitedStep(s, more[0], sid, n, closing, limit);
      LimitedForever(Apply(s, more[0]), more[1..], sid, n, closing, limit);
    }
  }

  /** The remaining case: if the close of the stream is under way as the n-th event, all that can still be read are the
      chunks before it, and the promise stands if and only if those are a prefix. */
  lemma PrefixBeforeCloseExactlyWhen(schedule: seq<Step>, sid: Sid, n: nat)
    requires var s := Run(schedule);
             sid in s.table && s.taken <= n < |s.written| && NoCloseIn(s.written, s.taken, n, sid) && IsCloseOf(s.written[n], sid)
    ensures var s := Run(schedule);
            && sid in s.streams && s.streams[sid].missed <= |Chunks(s.written[..n], sid)|
            && ((forall more: seq<Step> :: PrefixHolds(Run(schedule + more), sid)) <==>
                Chunks(s.written[..n], sid)[s.streams[sid].missed..] <= Chunks(s.written, sid))
  {
    var s := Run(schedule);
    EveryRunKeepsInv(schedule);
    hide Run, RunFrom, Chunks, Flow, StreamOk;
    assert StreamInv(s, sid);
    assert s.written[..n][..s.taken] == s.written[..s.taken];
    ChunksOfPrefix(s.written[..n], s.taken, sid);
    var limit := Chunks(s.written[..n], sid)[s.streams[sid].missed..];
    var all := Chunks(s.written, sid);
    if limit <= all {
      forall more: seq<Step> ensures PrefixHolds(Run(schedule + more), sid) {
        RunContinues(schedule, more);
        LimitedForever(s, more, sid, n, s.written[n], limit);
        StaysPrefix(s, RunFrom(s, more), sid, limit);
      }
    } else {
      var dispatch := DispatchUpTo(s, n, sid);
      var s1 := RunFrom(s, dispatch);
      var drain := ReadAll(s1, sid);
      RunFromTwice(s, dispatch, drain);
      RunContinues(schedule, dispatch + drain);
      assert !PrefixHolds(Run(schedule + (dispatch + drain)), sid);
    }
  }

  lemma StaysPrefix(s: State, s': State, sid: Sid, limit: seq<Chunk>)
    requires sid in s'.streams && Flow(s'.streams[sid]) <= limit <= Chunks(s.written, sid) && s.written <= s'.written
    ensures PrefixHolds(s', sid)
  {
    hide Chunks;
    assert s'.streams[sid].got <= Flow(s'.streams[sid]);
    ChunksOfPrefix(s'.written, |s.written|, sid);
    assert s'.written[..|s.written|] == s.written;
  }
}
