/** The tables of connections per user and client, and the choice of the connection to write to
    (snova/mux/mux_conn_manager.cc, snova/mux/mux_connection.cc, ComparePriority). */
module Sessions {
  import opened Wire

  datatype ConnType = Entry | Exit

  /** A connection: its identity and its type. */
  datatype Conn = Conn(id: nat, kind: ConnType)

  datatype Key = Key(user: string, kind: ConnType, clientId: U64)

  type Slots = seq<Option<Conn>>
  type Table = map<Key, Slots>

  // ---- Slots ----

  /** The first null slot, or the end. */
  function FirstFree(slots: Slots): (i: nat)
    ensures i <= |slots| && (i < |slots| ==> slots[i].None?) && forall j :: 0 <= j < i ==> slots[j].Some?
  {
    if slots == [] || slots[0].None? then 0 else 1 + FirstFree(slots[1..])
  }

  function AddTo(slots: Slots, c: Conn): Slots {
    var i := FirstFree(slots);
    if i < |slots| then slots[i := Some(c)] else slots + [Some(c)]
  }

  /** The loop of Remove, which stops at the first other connection behind the one it cleared. */
  function Cleared(slots: Slots, c: Conn, matched: bool): (r: Slots)
    ensures |r| == |slots|
  {
    if slots == [] then []
    else if slots[0] == Some(c) then [None] + Cleared(slots[1..], c, true)
    else if slots[0].Some? && matched then slots
    else [slots[0]] + Cleared(slots[1..], c, matched)
  }

  predicate AllNull(slots: Slots) {
    forall i :: 0 <= i < |slots| ==> slots[i].None?
  }

  /** At most one slot holds the connection. */
  predicate Once(slots: Slots, c: Conn) {
    forall i, j :: 0 <= i < j < |slots| ==> !(slots[i] == Some(c) && slots[j] == Some(c))
  }

  /** Where the connection stands at most once, Remove clears it and nothing else. */
  lemma {:induction false} ClearedRemovesOne(slots: Slots, c: Conn, matched: bool)
    requires Once(slots, c) && (matched ==> Some(c) !in slots)
    ensures var r := Cleared(slots, c, matched);
            forall i :: 0 <= i < |slots| ==> r[i] == if slots[i] == Some(c) then None else slots[i]
  {
    if slots != [] {
      var tail := slots[1..];
      assert forall i :: 0 <= i < |tail| ==> tail[i] == slots[i + 1];
      if slots[0] == Some(c) {
        assert Some(c) !in tail;
        ClearedRemovesOne(tail, c, true);
      } else if slots[0].None? || !matched {
        ClearedRemovesOne(tail, c, matched);
      }
    }
  }

  // ---- The manager ----

  function TableAdd(t: Table, k: Key, c: Conn): Table {
    t[k := AddTo(if k in t then t[k] else [], c)]
  }

  function TableRemove(t: Table, k: Key, c: Conn): Table {
    if k !in t then t
    else
      var r := Cleared(t[k], c, false);
      if AllNull(r) then t - {k} else t[k := r]
  }

  class MuxConnManager {
    var table: Table

    constructor ()
      ensures table == map[]
    {
      table := map[];
    }

    method GetSession(user: string, clientId: U64, kind: ConnType) returns (slots: Slots)
      modifies this
      ensures var k := Key(user, kind, clientId);
              && (k in old(table) ==> table == old(table) && slots == table[k])
              && (k !in old(table) ==> table == old(table)[k := []] && slots == [])
    {
      var k := Key(user, kind, clientId);
      if k !in table {
        table := table[k := []];
      }
      slots := table[k];
    }

    /** Puts the connection into the first null slot, or behind the last, and reports where. */
    method Add(user: string, clientId: U64, c: Conn) returns (idx: nat)
      modifies this
      ensures var k := Key(user, c.kind, clientId);
              && table == TableAdd(old(table), k, c)
              && idx == FirstFree(if k in old(table) then old(table)[k] else [])
    {
      var slots := GetSession(user, clientId, c.kind);
      var k := Key(user, c.kind, clientId);
      idx := 0;
      while idx < |slots|
        invariant idx <= |slots| && forall j :: 0 <= j < idx ==> slots[j].Some?
      {
        if slots[idx].None? {
          FirstFreeIs(slots, idx);
          table := table[k := slots[idx := Some(c)]];
          return;
        }
        idx := idx + 1;
      }
      FirstFreeIs(slots, idx);
      table := table[k := slots + [Some(c)]];
    }

    /** Clears the connection's slot, and erases the session if all its slots are then null. */
    method Remove(user: string, clientId: U64, c: Conn)
      modifies this
      ensures table == TableRemove(old(table), Key(user, c.kind, clientId), c)
    {
      var k := Key(user, c.kind, clientId);
      if k !in table {
        return;
      }
      var slots, allEmpty := ClearSlot(table[k], c);
      table := if allEmpty then table - {k} else table[k := slots];
    }
  }

  /** The loop of Remove. */
  method ClearSlot(was: Slots, c: Conn) returns (slots: Slots, allEmpty: bool)
    ensures slots == Cleared(was, c, false)
    ensures allEmpty <==> AllNull(slots)
  {
    hide Cleared;
    ghost var target := Cleared(was, c, false);
    slots, allEmpty := was, true;
    var matched := false;
    assert was[0..] == was && target[0..] == target;
    for i := 0 to |was|
      invariant |slots| == |was| == |target|
      invariant target[i..] == Cleared(was[i..], c, matched)
      invariant forall j :: 0 <= j < i ==> slots[j] == target[j]
      invariant forall j :: i <= j < |was| ==> slots[j] == was[j]
      invariant allEmpty <==> forall j :: 0 <= j < i ==> slots[j].None?
    {
      TargetStep(was, target, i, c, matched);
      if slots[i] == Some(c) {
        slots := slots[i := None];
        matched := true;
      }
      if slots[i].Some? {
        allEmpty := false;
        if matched {
          return;
        }
      }
    }
  }

  /** The i-th turn of the loop, read off the slots it is to end with. */
  lemma TargetStep(was: Slots, target: Slots, i: nat, c: Conn, matched: bool)
    requires i < |was| == |target| && target[i..] == Cleared(was[i..], c, matched)
    ensures if was[i] == Some(c) then target[i].None? && target[i + 1..] == Cleared(was[i + 1..], c, true)
            else if was[i].Some? && matched then forall j :: i <= j < |was| ==> target[j] == was[j]
            else target[i] == was[i] && target[i + 1..] == Cleared(was[i + 1..], c, matched)
  {
    hide Cleared;
    ClearedStep(was, i, c, matched);
    assert target[i..][0] == target[i] && target[i..][1..] == target[i + 1..];
    if was[i] != Some(c) && was[i].Some? && matched {
      assert forall j :: i <= j < |was| ==> target[j] == target[i..][j - i] && was[j] == was[i..][j - i];
    }
  }

  lemma ClearedStep(slots: Slots, i: nat, c: Conn, matched: bool)
    requires i < |slots|
    ensures Cleared(slots[i..], c, matched) ==
            if slots[i] == Some(c) then [None] + Cleared(slots[i + 1..], c, true)
            else if slots[i].Some? && matched then slots[i..]
            else [slots[i]] + Cleared(slots[i + 1..], c, matched)
  {
    assert slots[i..][1..] == slots[i + 1..];
  }

  lemma {:induction false} FirstFreeIs(slots: Slots, i: nat)
    requires i <= |slots| && (i < |slots| ==> slots[i].None?) && forall j :: 0 <= j < i ==> slots[j].Some?
    ensures FirstFree(slots) == i
  {
    var f := FirstFree(slots);
    assert f < |slots| ==> slots[f].None?;
  }

  // ---- Every sequence of additions and removals ----

  datatype Op = Add(k: Key, c: Conn) | Remove(k: Key, c: Conn) | Get(k: Key)

  /** The table, and the connections that were added and not removed, each with the index Add reported. */
  datatype State = State(table: Table, live: map<(Key, Conn), nat>)

  /** A connection is added to a session only when it is not in it. */
  predicate Enabled(s: State, op: Op) {
    op.Add? ==> (op.k, op.c) !in s.live
  }

  function Apply(s: State, op: Op): State {
    if !Enabled(s, op) then s
    else
      match op
      case Add(k, c) =>
        State(TableAdd(s.table, k, c), s.live[(k, c) := FirstFree(if k in s.table then s.table[k] else [])])
      case Remove(k, c) => State(TableRemove(s.table, k, c), s.live - {(k, c)})
      case Get(k) => if k in s.table then s else s.(table := s.table[k := []])
  }

  function Run(ops: seq<Op>): State {
    if ops == [] then State(map[], map[])
    else var n := |ops| - 1; Apply(Run(ops[..n]), ops[n])
  }

  /** A slot holds a connection exactly when it was added, not removed, and this is the index that was reported. */
  predicate Stands(t: Table, k: Key, c: Conn, i: nat) {
    k in t && i < |t[k]| && t[k][i] == Some(c)
  }

  ghost predicate Inv(s: State) {
    forall k, c, i: nat :: Stands(s.table, k, c, i) <==> (k, c) in s.live && s.live[(k, c)] == i
  }

  lemma OnceInLive(s: State, k: Key, c: Conn)
    requires Inv(s) && k in s.table
    ensures Once(s.table[k], c)
  {
    assert forall i: nat :: i < |s.table[k]| && s.table[k][i] == Some(c) ==> Stands(s.table, k, c, i);
  }

  lemma AddKeepsInv(s: State, k: Key, c: Conn)
    requires Inv(s) && (k, c) !in s.live
    ensures Inv(Apply(s, Add(k, c)))
  {
    var s' := Apply(s, Add(k, c));
    var slots := if k in s.table then s.table[k] else [];
    var f := FirstFree(slots);
    forall k1, c1, i: nat
      ensures Stands(s'.table, k1, c1, i) <==> (k1, c1) in s'.live && s'.live[(k1, c1)] == i
    {
      assert Stands(s.table, k1, c1, i) <==> (k1, c1) in s.live && s.live[(k1, c1)] == i;
      if k1 == k {
        assert i != f ==> (Stands(s'.table, k, c1, i) <==> i < |slots| && slots[i] == Some(c1));
        assert (k1, c1) != (k, c) ==> c1 != c;
      }
    }
  }

  lemma RemoveKeepsInv(s: State, k: Key, c: Conn)
    requires Inv(s)
    ensures Inv(Apply(s, Remove(k, c)))
  {
    var s' := Apply(s, Remove(k, c));
    if k in s.table {
      OnceInLive(s, k, c);
      ClearedRemovesOne(s.table[k], c, false);
    }
    forall k1, c1, i: nat
      ensures Stands(s'.table, k1, c1, i) <==> (k1, c1) in s'.live && s'.live[(k1, c1)] == i
    {
      assert Stands(s.table, k1, c1, i) <==> (k1, c1) in s.live && s.live[(k1, c1)] == i;
    }
  }

  lemma {:induction false} EveryRunKeepsInv(ops: seq<Op>)
    ensures Inv(Run(ops))
  {
    if ops != [] {
      var n := |ops| - 1;
      EveryRunKeepsInv(ops[..n]);
      var s := Run(ops[..n]);
      match ops[n]
      case Add(k, c) => if (k, c) !in s.live { AddKeepsInv(s, k, c); }
      case Remove(k, c) => RemoveKeepsInv(s, k, c);
      case Get(k) =>
        var s' := Apply(s, ops[n]);
        assert forall k1, c1, i: nat :: Stands(s'.table, k1, c1, i) <==> Stands(s.table, k1, c1, i);
    }
  }

  /** The table holds exactly the live connections, each once and at the index Add reported. */
  lemma TableHoldsExactlyLive(ops: seq<Op>, k: Key, c: Conn, i: nat)
    ensures var s := Run(ops); Stands(s.table, k, c, i) <==> (k, c) in s.live && s.live[(k, c)] == i
  {
    EveryRunKeepsInv(ops);
  }

  /** Add never touches an occupied slot. */
  lemma AddKeepsOccupants(ops: seq<Op>, k: Key, c: Conn, k1: Key, c1: Conn, i: nat)
    requires Stands(Run(ops).table, k1, c1, i) && (k, c) !in Run(ops).live
    ensures Stands(Apply(Run(ops), Add(k, c)).table, k1, c1, i)
  {
    EveryRunKeepsInv(ops);
    AddKeepsInv(Run(ops), k, c);
  }

  /** Remove erases the session exactly when no connection is left in it; and doing it again changes nothing. */
  lemma RemoveErasesExactlyEmpty(ops: seq<Op>, k: Key, c: Conn)
    ensures var s := Run(ops); var t := TableRemove(s.table, k, c);
            && (k in s.table ==> (k !in t <==> forall d: Conn :: d != c ==> (k, d) !in s.live))
            && TableRemove(t, k, c) == t
  {
    EveryRunKeepsInv(ops);
    var s := Run(ops);
    var t := TableRemove(s.table, k, c);
    if k in s.table {
      OnceInLive(s, k, c);
      ClearedRemovesOne(s.table[k], c, false);
      var r := Cleared(s.table[k], c, false);
      if !AllNull(r) {
        var i :| 0 <= i < |r| && r[i].Some?;
        assert Stands(s.table, k, r[i].value, i);
        assert Some(c) !in r;
        ClearedRemovesOne(r, c, false);
        assert Cleared(r, c, false) == r;
      } else {
        forall d: Conn | d != c ensures (k, d) !in s.live {
          assert (k, d) in s.live ==> Stands(s.table, k, d, s.live[(k, d)]);
        }
      }
    }
  }

  // ---- Choosing a connection ----

  /** What ComparePriority looks at; `sent` are the bytes sent in the recent seconds. */
  datatype Load = Load(waiting: nat, locked: bool, sent: seq<U32>)

  function Sum(w: seq<U32>): nat {
    if w == [] then 0 else Sum(w[..|w| - 1]) + (w[|w| - 1] as int)
  }

  lemma SumOf(w: seq<U32>, x: U32)
    ensures Sum([]) == 0 && Sum(w + [x]) == Sum(w) + (x as int)
  {
    assert (w + [x])[..|w|] == w;
  }

  method LatestWindowSendBytes(w: seq<U32>) returns (n: nat)
    ensures n == Sum(w)
  {
    n := 0;
    for i := 0 to |w|
      invariant n == Sum(w[..i])
    {
      assert w[..i + 1][..i] == w[..i];
      n := n + (w[i] as int);
    }
    assert w[..|w|] == w;
  }

  /** `ComparePriority`: positive if `a` is the better one to write to. */
  function Compare(a: Load, b: Load): int {
    if a.waiting < b.waiting then 1
    else if a.waiting > b.waiting then -1
    else if !a.locked && b.locked then 1
    else if a.locked && !b.locked then -1
    else if Sum(a.sent) < Sum(b.sent) then 1
    else if Sum(a.sent) > Sum(b.sent) then -1
    else 0
  }

  /** The better connection to write to: fewer waiting writers; with as many, an unlocked one; with both alike, fewer bytes
      sent in the recent seconds. */
  predicate Better(a: Load, b: Load) {
    || a.waiting < b.waiting
    || (a.waiting == b.waiting && !a.locked && b.locked)
    || (a.waiting == b.waiting && a.locked == b.locked && Sum(a.sent) < Sum(b.sent))
  }

  /** The sign of ComparePriority. */
  lemma CompareIsBetter(a: Load, b: Load)
    ensures Compare(a, b) > 0 <==> Better(a, b)
    ensures Compare(a, b) < 0 <==> Better(b, a)
    ensures -1 <= Compare(a, b) <= 1
  {
  }

  /** A total preorder: antisymmetric and transitive in both its strict and its weak form. */
  lemma CompareIsPreorder(a: Load, b: Load, c: Load)
    ensures Compare(a, b) == -Compare(b, a)
    ensures Compare(a, b) >= 0 && Compare(b, c) >= 0 ==> Compare(a, c) >= 0
    ensures Compare(a, b) >= 0 && Compare(b, c) >= 0 && (Compare(a, b) > 0 || Compare(b, c) > 0) ==> Compare(a, c) > 0
  {
  }

  /** The index the writer factory picks: -1 exactly if there is no connection; else the first of the best ones. */
  method SelectWriter(conns: seq<Option<Load>>) returns (selected: int)
    ensures selected == -1 <==> forall i :: 0 <= i < |conns| ==> conns[i].None?
    ensures selected != -1 ==>
              && 0 <= selected < |conns| && conns[selected].Some?
              && (forall i :: 0 <= i < |conns| && conns[i].Some? ==> !Better(conns[i].value, conns[selected].value))
              && (forall i :: 0 <= i < selected && conns[i].Some? ==> Better(conns[selected].value, conns[i].value))
  {
    hide Sum;
    selected := -1;
    for i := 0 to |conns|
      invariant selected == -1 <==> forall j :: 0 <= j < i ==> conns[j].None?
      invariant selected != -1 ==>
                  && 0 <= selected < i && conns[selected].Some?
                  && (forall j :: 0 <= j < i && conns[j].Some? ==> Compare(conns[j].value, conns[selected].value) <= 0)
                  && (forall j :: 0 <= j < selected && conns[j].Some? ==> Compare(conns[j].value, conns[selected].value) < 0)
    {
      if conns[i].Some? {
        if selected == -1 {
          selected := i;
        } else if Compare(conns[i].value, conns[selected].value) > 0 {
          forall j | 0 <= j < i && conns[j].Some?
            ensures Compare(conns[j].value, conns[i].value) < 0
          {
            CompareIsPreorder(conns[i].value, conns[selected].value, conns[j].value);
            CompareIsPreorder(conns[j].value, conns[selected].value, conns[i].value);
            CompareIsPreorder(conns[j].value, conns[i].value, conns[j].value);
          }
          selected := i;
        }
      }
    }
  }
}
