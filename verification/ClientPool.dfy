/** The client's pool of connections, one per slot: connecting, retiring, and the end of a read loop
    (snova/mux/mux_client.cc, NewConnection and CheckConnections; snova/mux/mux_connection.cc, the retire request). */
module ClientPool {
  import opened Wire

  /** A connection: its slot number, whether it is retired, and whether its read loop still runs. */
  datatype Conn = Conn(idx: nat, retired: bool, running: bool)

  /** What the one maintenance coroutine is suspended in. */
  datatype Maintenance = Idle | Connecting(i: nat) | Retiring(i: nat)

  /** Connections are numbered in the order in which they were made; slots hold such numbers. */
  datatype Pool = Pool(slots: seq<Option<nat>>, conns: seq<Conn>, upkeep: Maintenance)

  datatype Step =
    | StartConnect(i: nat)         // CheckConnections finds a null slot and enters NewConnection
    | ConnectFailed
    | Connected(endsFirst: bool)   // spawn the read loop, then assign the slot; `endsFirst` if the loop ends in between
    | Expire(i: nat)               // CheckConnections retires the occupant and clears the slot
    | RetireSent                   // the retire request is written
    | PeerRetire(c: nat)           // a retire request is read: the client has no retire callback
    | LoopExit(c: nat)             // the read loop ends

  predicate Enabled(p: Pool, t: Step) {
    match t
    case StartConnect(i) => p.upkeep.Idle? && i < |p.slots| && p.slots[i].None?
    case ConnectFailed => p.upkeep.Connecting?
    case Connected(_) => p.upkeep.Connecting? && p.upkeep.i < |p.slots|
    case Expire(i) => p.upkeep.Idle? && i < |p.slots| && p.slots[i].Some? && p.slots[i].value < |p.conns|
    case RetireSent => p.upkeep.Retiring?
    case PeerRetire(c) => c < |p.conns| && p.conns[c].running
    case LoopExit(c) => c < |p.conns| && p.conns[c].running && p.conns[c].idx < |p.slots|
  }

  function Apply(p: Pool, t: Step): Pool {
    if !Enabled(p, t) then p
    else
      match t
      case StartConnect(i) => p.(upkeep := Connecting(i))
      case ConnectFailed => p.(upkeep := Idle)
      case Connected(endsFirst) =>
        var i := p.upkeep.i;
        Pool(p.slots[i := Some(|p.conns|)], p.conns + [Conn(i, false, !endsFirst)], Idle)
      case Expire(i) =>
        var c := p.slots[i].value;
        Pool(p.slots[i := None], p.conns[c := p.conns[c].(retired := true)], Retiring(i))
      case RetireSent => p.(upkeep := Idle)
      case PeerRetire(c) => p.(conns := p.conns[c := p.conns[c].(retired := true)])
      case LoopExit(c) =>
        var conn := p.conns[c];
        p.(conns := p.conns[c := conn.(running := false)],
           slots := if conn.retired then p.slots else p.slots[conn.idx := None])
  }

  function Run(p: Pool, ts: seq<Step>): Pool
    decreases |ts|
  {
    if ts == [] then p else Run(Apply(p, ts[0]), ts[1..])
  }

  function Fresh(n: nat): Pool { Pool(seq(n, _ => None), [], Idle) }

  // ---- What holds in every run ----

  predicate InUse(p: Pool, c: nat) { c < |p.conns| && p.conns[c].running && !p.conns[c].retired }

  /** A connection in use occupies its slot; an occupant knows its slot; a slot being connected is null. */
  ghost predicate Base(p: Pool) {
    && (forall c: nat :: c < |p.conns| ==> p.conns[c].idx < |p.slots|)
    && (forall c: nat :: c < |p.conns| && InUse(p, c) ==> p.slots[p.conns[c].idx] == Some(c))
    && (forall i: nat :: i < |p.slots| && p.slots[i].Some? ==>
          p.slots[i].value < |p.conns| && p.conns[p.slots[i].value].idx == i)
    && (p.upkeep.Connecting? ==> p.upkeep.i < |p.slots| && p.slots[p.upkeep.i].None?)
  }

  /** Every occupant is in use: running and not retired. */
  ghost predicate Clean(p: Pool) {
    && Base(p)
    && forall i: nat :: i < |p.slots| && p.slots[i].Some? ==> InUse(p, p.slots[i].value)
  }

  lemma StepKeepsBase(p: Pool, t: Step)
    requires Base(p)
    ensures Base(Apply(p, t)) && |Apply(p, t).slots| == |p.slots|
  {
    var p' := Apply(p, t);
    forall c: nat | c < |p'.conns|
      ensures p'.conns[c].idx < |p'.slots| && (InUse(p', c) ==> p'.slots[p'.conns[c].idx] == Some(c))
    {
      if t.Connected? && c == |p.conns| {
        assert p'.conns[c].idx == p.upkeep.i;
      } else {
        assert p'.conns[c].idx == p.conns[c].idx && (InUse(p', c) ==> InUse(p, c));
      }
    }
    forall i: nat | i < |p'.slots| && p'.slots[i].Some?
      ensures p'.slots[i].value < |p'.conns| && p'.conns[p'.slots[i].value].idx == i
    {
      assert p'.slots[i] == p.slots[i] || (t.Connected? && i == p.upkeep.i);
    }
  }

  lemma {:induction false} EveryRunKeepsBase(p: Pool, ts: seq<Step>)
    requires Base(p)
    ensures Base(Run(p, ts)) && |Run(p, ts).slots| == |p.slots|
    decreases |ts|
  {
    if ts != [] {
      StepKeepsBase(p, ts[0]);
      EveryRunKeepsBase(Apply(p, ts[0]), ts[1..]);
    }
  }

  /** Whatever happened before, the end of a connection's read loop takes that connection out of the pool unless it
      is retired, and never disturbs another one: the exit of a retired connection does not clear its successor. */
  lemma ExitNeverClearsAnother(n: nat, ts: seq<Step>, c: nat, i: nat)
    requires i < n
    ensures var p := Run(Fresh(n), ts); var p' := Apply(p, LoopExit(c));
            && |p.slots| == |p'.slots| == n
            && (p.slots[i] != Some(c) ==> p'.slots[i] == p.slots[i])
            && (p.slots[i] == Some(c) ==> p'.slots[i] == if InUse(p, c) then None else p.slots[i])
  {
    EveryRunKeepsBase(Fresh(n), ts);
    var p := Run(Fresh(n), ts);
    StepKeepsBase(p, LoopExit(c));
    assert InUse(p, c) ==> p.slots[p.conns[c].idx] == Some(c);
  }

  // ---- When every occupant is usable ----

  /** The two events that leave an unusable occupant: the peer asks to retire the connection in a slot, and a read loop
      that ends between its start and the assignment of the slot. */
  predicate Spoils(p: Pool, t: Step) {
    Enabled(p, t) && (t == Connected(true) || (t.PeerRetire? && InUse(p, t.c)))
  }

  /** From a clean pool, a step leads to a clean pool exactly if it is not one of those two. */
  lemma CleanExactlyWhen(p: Pool, t: Step)
    requires Clean(p)
    ensures Clean(Apply(p, t)) <==> !Spoils(p, t)
  {
    StepKeepsBase(p, t);
    var p' := Apply(p, t);
    if Spoils(p, t) {
      var i := if t.PeerRetire? then p.conns[t.c].idx else p.upkeep.i;
      assert p'.slots[i].Some? && !InUse(p', p'.slots[i].value);
    } else {
      forall i: nat | i < |p'.slots| && p'.slots[i].Some? ensures InUse(p', p'.slots[i].value) {
        var c := p'.slots[i].value;
        assert (t.Connected? && c == |p.conns|) || (p.slots[i] == Some(c) && InUse(p, c));
      }
    }
  }

  /** No step of the run spoils a slot. */
  predicate NeverSpoils(p: Pool, ts: seq<Step>)
    decreases |ts|
  {
    ts == [] || (!Spoils(p, ts[0]) && NeverSpoils(Apply(p, ts[0]), ts[1..]))
  }

  /** In every run without those events, the occupant of a slot is exactly the connection of that slot in use. */
  lemma OccupantsAreExactlyInUse(n: nat, ts: seq<Step>, i: nat, c: nat)
    requires i < n && NeverSpoils(Fresh(n), ts)
    ensures var p := Run(Fresh(n), ts);
            |p.slots| == n && (p.slots[i] == Some(c) <==> InUse(p, c) && p.conns[c].idx == i)
  {
    EveryRunKeepsBase(Fresh(n), ts);
    CleanRun(Fresh(n), ts);
  }

  lemma {:induction false} CleanRun(p: Pool, ts: seq<Step>)
    requires Clean(p) && NeverSpoils(p, ts)
    ensures Clean(Run(p, ts))
    decreases |ts|
  {
    if ts != [] {
      CleanExactlyWhen(p, ts[0]);
      CleanRun(Apply(p, ts[0]), ts[1..]);
    }
  }

  /** A spoiled slot keeps its unusable occupant until the expiry of that slot, whatever else happens. */
  lemma {:induction false} SpoiledUntilExpiry(p: Pool, ts: seq<Step>, i: nat)
    requires Base(p) && i < |p.slots| && p.slots[i].Some? && !InUse(p, p.slots[i].value)
    requires Expire(i) !in ts
    ensures var q := Run(p, ts); |q.slots| == |p.slots| && q.slots[i] == p.slots[i] && !InUse(q, q.slots[i].value)
    decreases |ts|
  {
    if ts != [] {
      StepKeepsBase(p, ts[0]);
      var q := Apply(p, ts[0]);
      assert ts[0] != Expire(i);
      assert q.slots[i] == p.slots[i] && !InUse(q, q.slots[i].value);
      SpoiledUntilExpiry(q, ts[1..], i);
    }
  }

  /** The expiry ends it, after every run: the slot is free, its occupant retired and so out of use and of every slot, and
      nothing else has changed; in particular an unusable occupant is gone. */
  lemma ExpiryFreesSlot(n: nat, ts: seq<Step>, i: nat)
    requires Enabled(Run(Fresh(n), ts), Expire(i))
    ensures var p := Run(Fresh(n), ts); var c := p.slots[i].value; var q := Apply(p, Expire(i));
            && |q.slots| == |p.slots| == n && q.slots[i].None? && (forall j :: 0 <= j < n && j != i ==> q.slots[j] == p.slots[j])
            && |q.conns| == |p.conns| && q.conns[c].retired && !InUse(q, c) && Some(c) !in q.slots
            && (forall d :: 0 <= d < |p.conns| && d != c ==> q.conns[d] == p.conns[d])
  {
    EveryRunKeepsBase(Fresh(n), ts);
    StepKeepsBase(Run(Fresh(n), ts), Expire(i));
  }

  /** After every run, an expired connection is replaced: once the retire request is out and a new connection stands, that
      one holds the slot and is in use, the old one is in no slot and out of use, and the end of the old one's read loop,
      whenever it comes, leaves the slots alone. */
  lemma ExpiredIsReplaced(n: nat, ts: seq<Step>, i: nat)
    requires Enabled(Run(Fresh(n), ts), Expire(i))
    ensures var p := Run(Fresh(n), ts); var c, m := p.slots[i].value, |p.conns|;
            var q := Run(p, [Expire(i), RetireSent, StartConnect(i), Connected(false)]);
            && |q.slots| == |p.slots| == n && q.slots[i] == Some(m) && InUse(q, m) && q.upkeep == Idle
            && Some(c) !in q.slots && !InUse(q, c)
            && (forall j :: 0 <= j < n && j != i ==> q.slots[j] == p.slots[j])
            && Apply(q, LoopExit(c)).slots == q.slots
  {
    EveryRunKeepsBase(Fresh(n), ts);
    ExpiryFreesSlot(n, ts, i);
    var p := Run(Fresh(n), ts);
    var q1 := Apply(p, Expire(i));
    var q2 := Apply(q1, RetireSent);
    var q3 := Apply(q2, StartConnect(i));
    var q4 := Apply(q3, Connected(false));
    FourSteps(p, Expire(i), RetireSent, StartConnect(i), Connected(false));
    assert q3.slots == q1.slots && q3.conns == q1.conns && q3.upkeep == Connecting(i);
    assert q4.slots == q1.slots[i := Some(|p.conns|)];
  }

  lemma FourSteps(p: Pool, a: Step, b: Step, c: Step, d: Step)
    ensures Run(p, [a, b, c, d]) == Apply(Apply(Apply(Apply(p, a), b), c), d)
  {
    hide Apply;
    assert [a, b, c, d][1..] == [b, c, d] && [b, c, d][1..] == [c, d] && [c, d][1..] == [d] && [d][1..] == [];
    var p2 := Apply(Apply(p, a), b);
    assert Run(Apply(p2, c), [d]) == Apply(Apply(p2, c), d);
    assert Run(p2, [c, d]) == Run(Apply(p2, c), [d]);
    assert Run(Apply(p, a), [b, c, d]) == Run(p2, [c, d]);
  }

  /** A run in which the peer asks to retire the only connection: when its loop has ended, it still fills the slot. */
  lemma PeerRetireExample()
    ensures var p := Run(Fresh(1), [StartConnect(0), Connected(false), PeerRetire(0), LoopExit(0)]);
            p.slots == [Some(0)] && p.conns == [Conn(0, true, false)]
  {
    var p1 := Apply(Fresh(1), StartConnect(0));
    var p2 := Apply(p1, Connected(false));
    assert p2 == Pool([Some(0)], [Conn(0, false, true)], Idle);
    var p3 := Apply(p2, PeerRetire(0));
    var p4 := Apply(p3, LoopExit(0));
    assert [StartConnect(0), Connected(false), PeerRetire(0), LoopExit(0)][1..]
        == [Connected(false), PeerRetire(0), LoopExit(0)];
    assert [Connected(false), PeerRetire(0), LoopExit(0)][1..] == [PeerRetire(0), LoopExit(0)];
    assert [PeerRetire(0), LoopExit(0)][1..] == [LoopExit(0)];
    assert Run(p3, [LoopExit(0)]) == p4;
    assert Run(p2, [PeerRetire(0), LoopExit(0)]) == p4;
  }

  // ---- The client object ----

  class MuxClient {
    var slots: seq<Option<nat>>
    var conns: seq<Conn>
    var upkeep: Maintenance

    ghost function View(): Pool reads this { Pool(slots, conns, upkeep) }

    constructor (n: nat)
      ensures View() == Fresh(n) && Clean(View())
    {
      slots := seq(n, _ => None);
      conns := [];
      upkeep := Idle;
    }

    /** One turn of the loop in CheckConnections, up to its suspension; `expired` compares the clock. */
    method CheckSlot(i: nat, expired: bool)
      requires Base(View()) && upkeep.Idle? && i < |slots|
      modifies this
      ensures Base(View())
      ensures old(slots[i].None?) ==> View() == Apply(old(View()), StartConnect(i)) && upkeep == Connecting(i)
      ensures old(slots[i].Some?) && expired ==> View() == Apply(old(View()), Expire(i)) && upkeep == Retiring(i)
      ensures old(slots[i].Some?) && expired ==>
                slots[i].None? && conns[old(slots[i].value)].retired && Some(old(slots[i].value)) !in slots
      ensures old(slots[i].Some?) && !expired ==> View() == old(View())
    {
      StepKeepsBase(View(), StartConnect(i));
      StepKeepsBase(View(), Expire(i));
      match slots[i]
      case None => upkeep := Connecting(i);
      case Some(c) =>
        if expired {
          conns := conns[c := conns[c].(retired := true)];
          slots := slots[i := None];
          upkeep := Retiring(i);
        }
    }

    /** The end of NewConnection; with `endsFirst` the spawned read loop has ended before the slot is assigned. */
    method FinishConnect(ok: bool, endsFirst: bool)
      requires Base(View()) && upkeep.Connecting?
      modifies this
      ensures Base(View())
      ensures View() == Apply(old(View()), if ok then Connected(endsFirst) else ConnectFailed)
      ensures old(Clean(View())) ==> (Clean(View()) <==> !(ok && endsFirst))
      ensures upkeep == Idle
      ensures ok ==> slots == old(slots)[old(upkeep.i) := Some(old(|conns|))] && |conns| == old(|conns|) + 1
      ensures ok ==> conns[old(|conns|)].idx == old(upkeep.i) && (InUse(View(), old(|conns|)) <==> !endsFirst)
      ensures !ok ==> slots == old(slots) && conns == old(conns)
    {
      ghost var p, t := View(), if ok then Connected(endsFirst) else ConnectFailed;
      StepKeepsBase(p, t);
      if Clean(p) {
        CleanExactlyWhen(p, t);
      }
      if ok {
        var i, c := upkeep.i, |conns|;
        conns := conns + [Conn(i, false, true)];
        if endsFirst {
          conns := conns[c := Conn(i, false, false)];
          slots := slots[i := None];
        }
        slots := slots[i := Some(c)];
      }
      upkeep := Idle;
    }

    /** The rest of the spawned coroutine, after its read loop. */
    method AfterReadLoop(c: nat)
      requires Base(View()) && c < |conns| && conns[c].running
      modifies this
      ensures Base(View()) && View() == Apply(old(View()), LoopExit(c))
      ensures old(Clean(View())) ==> Clean(View()) && Some(c) !in slots
      ensures |conns| == old(|conns|) && !conns[c].running && (old(conns[c].retired) ==> slots == old(slots))
    {
      StepKeepsBase(View(), LoopExit(c));
      if Clean(View()) {
        CleanExactlyWhen(View(), LoopExit(c));
      }
      conns := conns[c := conns[c].(running := false)];
      if !conns[c].retired {
        slots := slots[conns[c].idx := None];
      }
    }
  }
}
