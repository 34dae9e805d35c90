/** The server name in a TLS ClientHello (section 7.4.1.2 of RFC 5246, section 3 of RFC 6066; snova/util/sni.cc). */
module Sni {
  import opened Wire

  const TLS_HEADER_LEN: nat := 5

  datatype SniResult = Host(name: Bytes) | Fail(code: int)

  /** The two-byte big-endian number at position i. */
  function Word(d: Bytes, i: nat): U16
    requires i + 2 <= |d|
  {
    256 * (d[i] as int) + (d[i + 1] as int)
  }

  // ---- What the three parsers compute ----

  /** The loop of `parse_server_name_extension` from `pos` on. */
  function NamesFrom(d: Bytes, pos: nat): SniResult
    decreases |d| - pos
  {
    if pos + 3 < |d| then
      var len := Word(d, pos + 1);
      if pos + 3 + len > |d| then Fail(-5)
      else if d[pos] == 0 then Host(d[pos + 3..pos + 3 + len])
      else NamesFrom(d, pos + 3 + len)
    else if pos != |d| then Fail(-5)
    else Fail(-2)
  }

  /** The loop of `parse_extensions` from `pos` on. */
  function ExtensionsFrom(d: Bytes, pos: nat): SniResult
    decreases |d| - pos
  {
    if pos + 4 <= |d| then
      var len := Word(d, pos + 2);
      if d[pos] == 0 && d[pos + 1] == 0 then
        if pos + 4 + len > |d| then Fail(-5) else NamesFrom(d[pos + 4..pos + 4 + len], 2)
      else ExtensionsFrom(d, pos + 4 + len)
    else if pos != |d| then Fail(-5)
    else Fail(-2)
  }

  // ---- The parsers ----

  method ParseServerNameExtension(d: Bytes) returns (r: SniResult)
    ensures r == NamesFrom(d, 2)
  {
    var pos: nat := 2;
    while pos + 3 < |d|
      invariant NamesFrom(d, pos) == NamesFrom(d, 2)
      decreases |d| - pos
    {
      var len := Word(d, pos + 1);
      if pos + 3 + len > |d| {
        return Fail(-5);
      }
      if d[pos] == 0 {
        return Host(d[pos + 3..pos + 3 + len]);
      }
      pos := pos + 3 + len;
    }
    if pos != |d| {
      return Fail(-5);
    }
    return Fail(-2);
  }

  method ParseExtensions(d: Bytes) returns (r: SniResult)
    ensures r == ExtensionsFrom(d, 0)
  {
    var pos: nat := 0;
    while pos + 4 <= |d|
      invariant ExtensionsFrom(d, pos) == ExtensionsFrom(d, 0)
      decreases |d| - pos
    {
      var len := Word(d, pos + 2);
      if d[pos] == 0 && d[pos + 1] == 0 {
        if pos + 4 + len > |d| {
          return Fail(-5);
        }
        r := ParseServerNameExtension(d[pos + 4..pos + 4 + len]);
        return;
      }
      pos := pos + 4 + len;
    }
    if pos != |d| {
      return Fail(-5);
    }
    return Fail(-2);
  }

  /** `parse_sni`: the record header. Every index is in range on every input. */
  method ParseSni(data: Bytes) returns (r: SniResult)
    ensures r == ParseRecord(data)
  {
    if |data| < TLS_HEADER_LEN {
      return Fail(-1);
    }
    if data[0] >= 128 && data[2] == 1 {
      return Fail(-2);
    }
    if data[0] != 0x16 {
      return Fail(-5);
    }
    if data[1] < 3 {
      return Fail(-2);
    }
    var len: nat := Word(data, 3) + TLS_HEADER_LEN;
    var dataLen := Min(|data|, len);
    if dataLen < len {
      return Fail(-1);
    }
    r := ParseHello(data[TLS_HEADER_LEN..dataLen], data[1] == 3 && data[2] == 0);
  }

  /** The handshake message inside the record: a cursor that skips field after field. */
  method ParseHello(h: Bytes, ssl3: bool) returns (r: SniResult)
    ensures r == ParseHandshake(h, ssl3)
  {
    hide ExtensionsFrom;
    if 1 > |h| || h[0] != 1 {
      return Fail(-5);
    }
    var pos: nat := 38;
    if pos + 1 > |h| {
      return Fail(-5);
    }
    pos := pos + 1 + (h[pos] as int);
    if pos + 2 > |h| {
      return Fail(-5);
    }
    pos := pos + 2 + Word(h, pos);
    if pos + 1 > |h| {
      return Fail(-5);
    }
    pos := pos + 1 + (h[pos] as int);
    if pos == |h| && ssl3 {
      return Fail(-2);
    }
    if pos + 2 > |h| {
      return Fail(-5);
    }
    var len := Word(h, pos);
    pos := pos + 2;
    if pos + len > |h| {
      return Fail(-5);
    }
    r := ParseExtensions(h[pos..pos + len]);
  }

  /** Where the extensions of a handshake message `h` (from its type byte on) begin: behind the fixed fields, the session
      id, the cipher suites and the compression methods. None if it is too short for them. */
  function ExtensionsAt(h: Bytes): Option<nat> {
    if |h| < 39 then None
    else
      var suites: nat := 39 + (h[38] as int);
      if suites + 2 > |h| then None
      else
        var methods: nat := suites + 2 + Word(h, suites);
        if methods + 1 > |h| then None else Some(methods + 1 + (h[methods] as int))
  }

  function ParseRecord(data: Bytes): SniResult {
    if |data| < 5 then Fail(-1)
    else if data[0] >= 128 && data[2] == 1 then Fail(-2)
    else if data[0] != 0x16 then Fail(-5)
    else if data[1] < 3 then Fail(-2)
    else if |data| < 5 + Word(data, 3) then Fail(-1)
    else ParseHandshake(data[5..5 + Word(data, 3)], data[1] == 3 && data[2] == 0)
  }

  function ParseHandshake(h: Bytes, ssl3: bool): SniResult {
    if h == [] || h[0] != 1 then Fail(-5)
    else
      match ExtensionsAt(h)
      case None => Fail(-5)
      case Some(at) =>
        if at == |h| && ssl3 then Fail(-2)
        else if at + 2 > |h| || at + 2 + Word(h, at) > |h| then Fail(-5)
        else ExtensionsFrom(h[at + 2..at + 2 + Word(h, at)], 0)
  }

  // ---- The grammar ----

  function Two(v: U16): (b: Bytes)
    ensures |b| == 2
  {
    [v / 256, v % 256]
  }

  /** A server name entry, and an extension. */
  datatype Named = Named(kind: Byte, name: Bytes)
  datatype Extension = Extension(kind: U16, body: Bytes)

  predicate OtherNames(es: seq<Named>) {
    forall e <- es :: e.kind != 0 && |e.name| < 0x1_0000
  }

  predicate OtherExtensions(es: seq<Extension>) {
    forall e <- es :: e.kind != 0 && |e.body| < 0x1_0000
  }

  function NameBytes(e: Named): Bytes
    requires |e.name| < 0x1_0000
  {
    [e.kind] + Two(|e.name|) + e.name
  }

  function NamesBytes(es: seq<Named>): Bytes
    requires OtherNames(es)
  {
    if es == [] then [] else
      assert es[0] in es;
      NameBytes(es[0]) + NamesBytes(es[1..])
  }

  function ExtensionBytes(e: Extension): Bytes
    requires |e.body| < 0x1_0000
  {
    Two(e.kind) + Two(|e.body|) + e.body
  }

  function ExtensionsBytes(es: seq<Extension>): Bytes
    requires OtherExtensions(es)
  {
    if es == [] then [] else
      assert es[0] in es;
      ExtensionBytes(es[0]) + ExtensionsBytes(es[1..])
  }

  /** A ClientHello with a server name: two bytes of list length, entries of other kinds, the host entry, and whatever
      follows it in its extension; extensions of other kinds before it, and whatever follows; any fixed fields, session id,
      cipher suites and compression methods; and whatever follows in the record and in the input. */
  datatype Hello = Hello(
    major: Byte, minor: Byte, fixed: Bytes, sessionId: Bytes, suites: Bytes, methods: Bytes,
    otherExtensions: seq<Extension>, listLen: Bytes, otherNames: seq<Named>, host: Bytes, moreNames: Bytes,
    moreExtensions: Bytes, moreRecord: Bytes, moreInput: Bytes)

  function SniBody(x: Hello): Bytes
    requires OtherNames(x.otherNames) && |x.host| < 0x1_0000
  {
    x.listLen + (NamesBytes(x.otherNames) + (NameBytes(Named(0, x.host)) + x.moreNames))
  }

  function ExtensionBlock(x: Hello): Bytes
    requires OtherNames(x.otherNames) && |x.host| < 0x1_0000 && |SniBody(x)| < 0x1_0000
    requires OtherExtensions(x.otherExtensions)
  {
    ExtensionsBytes(x.otherExtensions) + (ExtensionBytes(Extension(0, SniBody(x))) + x.moreExtensions)
  }

  function Front(x: Hello): Bytes
    requires |x.sessionId| < 256 && |x.suites| < 0x1_0000 && |x.methods| < 256
  {
    [1] + x.fixed + [|x.sessionId|] + x.sessionId + Two(|x.suites|) + x.suites + [|x.methods|] + x.methods
  }

  /** The lengths fit their fields. */
  predicate WellFormed(x: Hello) {
    && x.major >= 3 && |x.fixed| == 37 && |x.listLen| == 2
    && |x.sessionId| < 256 && |x.suites| < 0x1_0000 && |x.methods| < 256
    && OtherExtensions(x.otherExtensions) && OtherNames(x.otherNames) && |x.host| < 0x1_0000
    && |SniBody(x)| < 0x1_0000 && |ExtensionBlock(x)| < 0x1_0000
    && |Handshake(x)| < 0x1_0000
  }

  function Handshake(x: Hello): Bytes
    requires |x.sessionId| < 256 && |x.suites| < 0x1_0000 && |x.methods| < 256
    requires OtherExtensions(x.otherExtensions) && OtherNames(x.otherNames) && |x.host| < 0x1_0000
    requires |SniBody(x)| < 0x1_0000 && |ExtensionBlock(x)| < 0x1_0000
  {
    Front(x) + (Two(|ExtensionBlock(x)|) + ExtensionBlock(x) + x.moreRecord)
  }

  function Record(x: Hello): Bytes
    requires WellFormed(x)
  {
    [0x16, x.major, x.minor] + Two(|Handshake(x)|) + Handshake(x) + x.moreInput
  }

  // ---- The parser finds the name of every such record ----

  /** `rest` begins at `pos` in `d`. */
  predicate At(d: Bytes, pos: nat, rest: Bytes) {
    pos <= |d| && d[pos..] == rest
  }

  lemma AtBehind(d: Bytes, pos: nat, a: Bytes, b: Bytes)
    requires At(d, pos, a + b)
    ensures At(d, pos + |a|, b) && d[pos..pos + |a|] == a
    ensures forall i :: 0 <= i < |a| ==> d[pos + i] == a[i]
  {
    assert d[pos + |a|..] == d[pos..][|a|..];
    assert d[pos..pos + |a|] == d[pos..][..|a|];
    assert forall i :: 0 <= i < |a| ==> d[pos + i] == d[pos..][i];
  }

  lemma {:induction false} NamesFound(d: Bytes, pos: nat, es: seq<Named>, host: Bytes, more: Bytes)
    requires OtherNames(es) && |host| < 0x1_0000
    requires At(d, pos, NamesBytes(es) + (NameBytes(Named(0, host)) + more))
    ensures NamesFrom(d, pos) == if host != [] || more != [] then Host(host) else Fail(-5)
    decreases |es|
  {
    hide NameBytes, NamesBytes;
    var tail := NameBytes(Named(0, host)) + more;
    UnfoldNames(es, tail);
    if es == [] {
      NameAt(d, pos, Named(0, host), more);
    } else {
      NameAt(d, pos, es[0], NamesBytes(es[1..]) + tail);
      NamesFound(d, pos + 3 + |es[0].name|, es[1..], host, more);
    }
  }

  lemma UnfoldNames(es: seq<Named>, tail: Bytes)
    requires OtherNames(es)
    ensures es == [] ==> NamesBytes(es) + tail == tail
    ensures es != [] ==>
              && es[0] in es && |es[0].name| < 0x1_0000
              && NamesBytes(es) + tail == NameBytes(es[0]) + (NamesBytes(es[1..]) + tail)
  {
    hide NameBytes;
  }

  lemma NameAt(d: Bytes, pos: nat, e: Named, rest: Bytes)
    requires |e.name| < 0x1_0000 && At(d, pos, NameBytes(e) + rest)
    ensures pos + 3 + |e.name| + |rest| == |d| && At(d, pos + 3 + |e.name|, rest)
    ensures d[pos] == e.kind && Word(d, pos + 1) == |e.name| && d[pos + 3..pos + 3 + |e.name|] == e.name
  {
    AtBehind(d, pos, NameBytes(e), rest);
    var b := NameBytes(e);
    assert b[0] == e.kind && b[1] == |e.name| / 256 && b[2] == |e.name| % 256;
    assert d[pos] == d[pos + 0] && d[pos + 1] == b[1] && d[pos + 2] == b[2];
    assert d[pos + 3..pos + |b|] == d[pos..pos + |b|][3..] == b[3..] == e.name;
  }

  lemma ExtensionAt(d: Bytes, pos: nat, e: Extension, rest: Bytes)
    requires |e.body| < 0x1_0000 && At(d, pos, ExtensionBytes(e) + rest)
    ensures pos + 4 + |e.body| + |rest| == |d| && At(d, pos + 4 + |e.body|, rest)
    ensures Word(d, pos) == e.kind && Word(d, pos + 2) == |e.body| && d[pos + 4..pos + 4 + |e.body|] == e.body
  {
    AtBehind(d, pos, ExtensionBytes(e), rest);
    var b := ExtensionBytes(e);
    assert d[pos] == d[pos + 0] == b[0] && d[pos + 1] == b[1] && d[pos + 2] == b[2] && d[pos + 3] == b[3];
    assert d[pos + 4..pos + |b|] == d[pos..pos + |b|][4..] == b[4..] == e.body;
  }

  lemma UnfoldExtensions(es: seq<Extension>, tail: Bytes)
    requires OtherExtensions(es)
    ensures es == [] ==> ExtensionsBytes(es) + tail == tail
    ensures es != [] ==>
              && es[0] in es && |es[0].body| < 0x1_0000
              && ExtensionsBytes(es) + tail == ExtensionBytes(es[0]) + (ExtensionsBytes(es[1..]) + tail)
  {
    hide ExtensionBytes;
  }

  lemma {:induction false} ExtensionFound(d: Bytes, pos: nat, es: seq<Extension>, body: Bytes, more: Bytes)
    requires OtherExtensions(es) && |body| < 0x1_0000
    requires At(d, pos, ExtensionsBytes(es) + (ExtensionBytes(Extension(0, body)) + more))
    ensures ExtensionsFrom(d, pos) == NamesFrom(body, 2)
    decreases |es|
  {
    hide NamesFrom, ExtensionBytes, ExtensionsBytes;
    if es == [] {
      UnfoldExtensions(es, ExtensionBytes(Extension(0, body)) + more);
      ExtensionAt(d, pos, Extension(0, body), more);
    } else {
      var e := es[0];
      assert e in es;
      var rest := ExtensionsBytes(es[1..]) + (ExtensionBytes(Extension(0, body)) + more);
      UnfoldExtensions(es, ExtensionBytes(Extension(0, body)) + more);
      ExtensionAt(d, pos, e, rest);
      assert !(d[pos] == 0 && d[pos + 1] == 0);
      ExtensionFound(d, pos + 4 + |e.body|, es[1..], body, more);
    }
  }

  lemma ExtensionsOfFront(x: Hello, rest: Bytes)
    requires |x.fixed| == 37 && |x.sessionId| < 256 && |x.suites| < 0x1_0000 && |x.methods| < 256
    ensures ExtensionsAt(Front(x) + rest) == Some(|Front(x)|) && Front(x) != [] && Front(x)[0] == 1
  {
    var h := Front(x) + rest;
    var a := [1] + x.fixed + [|x.sessionId|];
    var b := x.sessionId + Two(|x.suites|);
    var c := x.suites + [|x.methods|];
    assert Front(x) == a + b + c + x.methods;
    assert h[38] == a[38] == |x.sessionId|;
    var suites := 39 + |x.sessionId|;
    assert |a| + |b| == suites + 2 && h[suites] == b[|x.sessionId|] && h[suites + 1] == b[|x.sessionId| + 1];
    assert Word(h, suites) == |x.suites|;
    var methods := suites + 2 + |x.suites|;
    assert h[methods] == c[|x.suites|] == |x.methods|;
  }

  /** For every record of the grammar the parser returns the first host name, however much other material surrounds it;
      only an empty name at the very end of its extension is refused. */
  lemma FindsHostName(x: Hello)
    requires WellFormed(x)
    ensures ParseRecord(Record(x)) == if x.host != [] || x.moreNames != [] then Host(x.host) else Fail(-5)
  {
    hide SniBody, ExtensionBlock, Front, NamesFrom, ExtensionsFrom;
    var h := Handshake(x);
    var data := Record(x);
    assert data[5..5 + |h|] == h && Word(data, 3) == |h|;
    var block := ExtensionBlock(x);
    ExtensionsOfFront(x, Two(|block|) + block + x.moreRecord);
    BlockAt(h, Front(x), block, x.moreRecord);
    BlockParses(x);
  }

  lemma BlockAt(h: Bytes, front: Bytes, block: Bytes, more: Bytes)
    requires |block| < 0x1_0000 && front != []
    requires h == front + (Two(|block|) + block + more)
    ensures var at := |front|;
            at + 2 + |block| <= |h| && Word(h, at) == |block| && h[at + 2..at + 2 + |block|] == block && h[0] == front[0]
  {
    assert h[|front|] == |block| / 256 && h[|front| + 1] == |block| % 256;
  }

  lemma BlockParses(x: Hello)
    requires OtherExtensions(x.otherExtensions) && OtherNames(x.otherNames) && |x.host| < 0x1_0000 && |x.listLen| == 2
    requires |SniBody(x)| < 0x1_0000
    ensures ExtensionsFrom(ExtensionBlock(x), 0) ==
            if x.host != [] || x.moreNames != [] then Host(x.host) else Fail(-5)
  {
    var body := SniBody(x);
    var block := ExtensionBlock(x);
    assert block[0..] == block;
    ExtensionFound(block, 0, x.otherExtensions, body, x.moreExtensions);
    assert body[2..] == NamesBytes(x.otherNames) + (NameBytes(Named(0, x.host)) + x.moreNames);
    NamesFound(body, 2, x.otherNames, x.host, x.moreNames);
  }

  // ---- The parser accepts nothing else ----

  lemma {:induction false} NamesShape(d: Bytes, pos: nat) returns (es: seq<Named>, more: Bytes)
    requires NamesFrom(d, pos).Host? && |d| < 0x1_0000
    ensures pos <= |d|
    ensures var host := NamesFrom(d, pos).name;
            && OtherNames(es) && |host| < 0x1_0000 && (host != [] || more != [])
            && d[pos..] == NamesBytes(es) + (NameBytes(Named(0, host)) + more)
    decreases |d| - pos
  {
    var len := Word(d, pos + 1);
    var next := pos + 3 + len;
    var e := Named(d[pos], d[pos + 3..next]);
    CutName(d, pos);
    hide NameBytes, NamesBytes;
    if d[pos] == 0 {
      es, more := [], d[next..];
      UnfoldNames(es, NameBytes(e) + more);
    } else {
      var rest;
      rest, more := NamesShape(d, next);
      es := [e] + rest;
      assert es[1..] == rest;
      UnfoldNames(es, NameBytes(Named(0, NamesFrom(d, pos).name)) + more);
    }
  }

  lemma CutExtension(d: Bytes, pos: nat)
    requires pos + 4 <= |d| && pos + 4 + Word(d, pos + 2) <= |d|
    ensures var next := pos + 4 + Word(d, pos + 2);
            d[pos..] == ExtensionBytes(Extension(Word(d, pos), d[pos + 4..next])) + d[next..]
  {
  }

  lemma CutName(d: Bytes, pos: nat)
    requires pos + 3 <= |d| && pos + 3 + Word(d, pos + 1) <= |d|
    ensures var next := pos + 3 + Word(d, pos + 1);
            d[pos..] == NameBytes(Named(d[pos], d[pos + 3..next])) + d[next..]
  {
  }

  lemma {:induction false} ExtensionsShape(d: Bytes, pos: nat) returns (es: seq<Extension>, body: Bytes, more: Bytes)
    requires pos <= |d| && ExtensionsFrom(d, pos).Host? && |d| < 0x1_0000
    ensures OtherExtensions(es) && |body| < 0x1_0000 && NamesFrom(body, 2) == ExtensionsFrom(d, pos)
    ensures d[pos..] == ExtensionsBytes(es) + (ExtensionBytes(Extension(0, body)) + more)
    decreases |d| - pos
  {
    hide NamesFrom, ExtensionsFrom, ExtensionBytes, ExtensionsBytes, OtherExtensions;
    ExtensionTurn(d, pos);
    CutExtension(d, pos);
    var kind, next := Word(d, pos), pos + 4 + Word(d, pos + 2);
    var e := Extension(kind, d[pos + 4..next]);
    if kind == 0 {
      es, body, more := [], e.body, d[next..];
      NoExtensionYet();
      UnfoldExtensions(es, ExtensionBytes(e) + more);
    } else {
      var rest;
      rest, body, more := ExtensionsShape(d, next);
      es := [e] + rest;
      OneMoreExtension(e, rest);
      UnfoldExtensions(es, ExtensionBytes(Extension(0, body)) + more);
      assert es[1..] == rest;
    }
  }

  /** One turn of the loop that has found a name. */
  lemma ExtensionTurn(d: Bytes, pos: nat)
    requires pos <= |d| && ExtensionsFrom(d, pos).Host?
    ensures pos + 4 <= |d|
    ensures var next := pos + 4 + Word(d, pos + 2);
            && next <= |d|
            && ExtensionsFrom(d, pos) ==
               if Word(d, pos) == 0 then NamesFrom(d[pos + 4..next], 2) else ExtensionsFrom(d, next)
  {
    hide NamesFrom;
  }

  lemma NoExtensionYet()
    ensures OtherExtensions([])
  {
  }

  lemma OneMoreExtension(e: Extension, es: seq<Extension>)
    requires OtherExtensions(es) && e.kind != 0 && |e.body| < 0x1_0000
    ensures OtherExtensions([e] + es)
  {
  }

  /** The fields in front of the extensions, read off the handshake message. */
  lemma FrontShape(h: Bytes) returns (fixed: Bytes, sessionId: Bytes, suites: Bytes, methods: Bytes)
    requires h != [] && h[0] == 1 && ExtensionsAt(h).Some? && ExtensionsAt(h).value <= |h|
    ensures |fixed| == 37 && |sessionId| < 256 && |suites| < 0x1_0000 && |methods| < 256
    ensures [1] + fixed + [|sessionId|] + sessionId + Two(|suites|) + suites + [|methods|] + methods ==
            h[..ExtensionsAt(h).value]
  {
    var a: nat := 39 + (h[38] as int);
    var b: nat := a + 2 + Word(h, a);
    fixed, sessionId, suites, methods := h[1..38], h[39..a], h[a + 2..b], h[b + 1..b + 1 + (h[b] as int)];
    assert h[..39] == [1] + fixed + [|sessionId|];
    assert h[a..a + 2] == Two(|suites|);
    assert h[..b] == h[..39] + sessionId + h[a..a + 2] + suites;
    assert h[..b + 1 + (h[b] as int)] == h[..b] + [h[b]] + methods;
  }

  /** The converse of FindsHostName: a name is returned only for a record of the grammar, and it is its host name. So the
      parser accepts exactly those records, and every name it returns is a slice of the input. */
  lemma AcceptsOnlyRecords(data: Bytes) returns (x: Hello)
    requires ParseRecord(data).Host?
    ensures WellFormed(x) && data == Record(x) && x.host == ParseRecord(data).name
    ensures x.host != [] || x.moreNames != []
  {
    hide NamesFrom, ExtensionsFrom, Front, Handshake, ExtensionBlock, SniBody;
    var n := Word(data, 3);
    var h := data[5..5 + n];
    var at := ExtensionsAt(h).value;
    var len := Word(h, at);
    var y := BlockShape(h[at + 2..at + 2 + len]);
    var fixed, sessionId, suites, methods := FrontShape(h);
    x := y.(major := data[1], minor := data[2], fixed := fixed, sessionId := sessionId, suites := suites,
            methods := methods, moreRecord := h[at + 2 + len..], moreInput := data[5 + n..]);
    SameBlock(x, y);
    FrontOf(x, h[..at]);
    HandshakeIs(x, h, at, len);
    SplitRecord(data, n);
  }

  /** The block of extensions does not depend on the rest of the hello. */
  lemma SameBlock(x: Hello, y: Hello)
    requires OtherExtensions(y.otherExtensions) && OtherNames(y.otherNames) && |y.host| < 0x1_0000 && |SniBody(y)| < 0x1_0000
    requires y == x.(major := y.major, minor := y.minor, fixed := y.fixed, sessionId := y.sessionId, suites := y.suites,
                     methods := y.methods, moreRecord := y.moreRecord, moreInput := y.moreInput)
    ensures SniBody(x) == SniBody(y) && ExtensionBlock(x) == ExtensionBlock(y)
  {
  }

  lemma HandshakeIs(x: Hello, h: Bytes, at: nat, len: nat)
    requires |x.sessionId| < 256 && |x.suites| < 0x1_0000 && |x.methods| < 256
    requires OtherExtensions(x.otherExtensions) && OtherNames(x.otherNames) && |x.host| < 0x1_0000
    requires |SniBody(x)| < 0x1_0000 && at + 2 + len <= |h| && len == Word(h, at)
    requires Front(x) == h[..at] && ExtensionBlock(x) == h[at + 2..at + 2 + len] && x.moreRecord == h[at + 2 + len..]
    ensures Handshake(x) == h
  {
    hide Front, ExtensionBlock, SniBody;
    SplitAround(h, at, len);
  }

  /** The part of a hello that the extensions determine. */
  lemma BlockShape(block: Bytes) returns (x: Hello)
    requires ExtensionsFrom(block, 0).Host? && |block| < 0x1_0000
    ensures OtherExtensions(x.otherExtensions) && OtherNames(x.otherNames) && |x.listLen| == 2
    ensures x.host == ExtensionsFrom(block, 0).name && |x.host| < 0x1_0000 && (x.host != [] || x.moreNames != [])
    ensures |SniBody(x)| < 0x1_0000 && ExtensionBlock(x) == block
  {
    hide NamesFrom, ExtensionsFrom;
    var others, body, moreExtensions := ExtensionsShape(block, 0);
    var names, more := NamesShape(body, 2);
    x := Hello(3, 0, [], [], [], [], others, body[..2], names, NamesFrom(body, 2).name, more, moreExtensions, [], []);
    assert SniBody(x) == body by { assert body == body[..2] + body[2..]; }
    assert block[0..] == block;
  }

  lemma FrontOf(x: Hello, front: Bytes)
    requires |x.sessionId| < 256 && |x.suites| < 0x1_0000 && |x.methods| < 256
    requires [1] + x.fixed + [|x.sessionId|] + x.sessionId + Two(|x.suites|) + x.suites + [|x.methods|] + x.methods == front
    ensures Front(x) == front
  {
  }

  lemma SplitAround(h: Bytes, at: nat, len: nat)
    requires at + 2 + len <= |h| && len == Word(h, at)
    ensures h == h[..at] + (Two(len) + h[at + 2..at + 2 + len] + h[at + 2 + len..])
  {
  }

  lemma SplitRecord(data: Bytes, n: nat)
    requires |data| >= 5 && n == Word(data, 3) && |data| >= 5 + n
    ensures data == [data[0], data[1], data[2]] + Two(n) + data[5..5 + n] + data[5 + n..]
  {
  }

  // ---- The failure codes ----

  lemma {:induction false} NamesCodes(d: Bytes, pos: nat)
    ensures var r := NamesFrom(d, pos); r.Host? || r == Fail(-2) || r == Fail(-5)
    decreases |d| - pos
  {
    if pos + 3 < |d| {
      NamesCodes(d, pos + 3 + Word(d, pos + 1));
    }
  }

  lemma {:induction false} ExtensionsCodes(d: Bytes, pos: nat)
    ensures var r := ExtensionsFrom(d, pos); r.Host? || r == Fail(-2) || r == Fail(-5)
    decreases |d| - pos
  {
    if pos + 4 <= |d| {
      var len := Word(d, pos + 2);
      ExtensionsCodes(d, pos + 4 + len);
      if pos + 4 + len <= |d| {
        NamesCodes(d[pos + 4..pos + 4 + len], 2);
      }
    }
  }

  lemma HandshakeCodes(h: Bytes, ssl3: bool)
    ensures var r := ParseHandshake(h, ssl3); r.Host? || r == Fail(-2) || r == Fail(-5)
  {
    hide ExtensionsFrom;
    if h != [] && h[0] == 1 && ExtensionsAt(h).Some? {
      var at := ExtensionsAt(h).value;
      if at + 2 <= |h| && at + 2 + Word(h, at) <= |h| {
        ExtensionsCodes(h[at + 2..at + 2 + Word(h, at)], 0);
      }
    }
  }

  /** The three failure codes, and exactly when more input is asked for: fewer than five bytes, or a handshake record of TLS
      whose length field announces more than has arrived. */
  lemma NeedsMoreExactlyWhen(data: Bytes)
    ensures var r := ParseRecord(data); r.Host? || r == Fail(-1) || r == Fail(-2) || r == Fail(-5)
    ensures ParseRecord(data) == Fail(-1) <==>
            |data| < 5 || (data[0] == 0x16 && data[1] >= 3 && |data| < 5 + 256 * (data[3] as int) + (data[4] as int))
  {
    hide ParseHandshake;
    if |data| >= 5 && |data| >= 5 + Word(data, 3) {
      HandshakeCodes(data[5..5 + Word(data, 3)], data[1] == 3 && data[2] == 0);
    }
  }

  /** What is not a TLS handshake record is refused by its first bytes: an SSL 2 hello and an old version with "no name", all
      else as invalid. */
  lemma ForeignRecords(data: Bytes)
    requires |data| >= 5 && (data[0] != 0x16 || data[1] < 3)
    ensures ParseRecord(data) ==
            if (data[0] >= 128 && data[2] == 1) || (data[0] == 0x16 && data[1] < 3) then Fail(-2) else Fail(-5)
  {
    hide ParseHandshake;
  }

  /** Of every record of the grammar, a part that stops before the end of the record asks for more. */
  lemma PartNeedsMore(x: Hello, k: nat)
    requires WellFormed(x) && k < 5 + |Handshake(x)|
    ensures k <= |Record(x)| && ParseRecord(Record(x)[..k]) == Fail(-1)
  {
    hide Handshake, ParseHandshake;
    var data := Record(x);
    var h := Handshake(x);
    assert data[0] == 0x16 && data[1] == x.major && data[3] == |h| / 256 && data[4] == |h| % 256;
    NeedsMoreExactlyWhen(data[..k]);
  }

  /** A hello like those of the grammar, with any block of extensions. */
  function HelloWith(x: Hello, block: Bytes): Bytes
    requires |x.sessionId| < 256 && |x.suites| < 0x1_0000 && |x.methods| < 256 && |block| < 0x1_0000
  {
    Front(x) + (Two(|block|) + block + x.moreRecord)
  }

  /** The lengths fit their fields. */
  predicate Fits(x: Hello, block: Bytes) {
    && x.major >= 3 && |x.fixed| == 37
    && |x.sessionId| < 256 && |x.suites| < 0x1_0000 && |x.methods| < 256 && |block| < 0x1_0000
    && |HelloWith(x, block)| < 0x1_0000
  }

  function RecordWith(x: Hello, block: Bytes): Bytes
    requires Fits(x, block)
  {
    [0x16, x.major, x.minor] + Two(|HelloWith(x, block)|) + HelloWith(x, block) + x.moreInput
  }

  lemma RecordParses(x: Hello, block: Bytes)
    requires Fits(x, block)
    ensures ParseRecord(RecordWith(x, block)) == ExtensionsFrom(block, 0)
  {
    hide HelloWith, ExtensionsFrom, ParseHandshake;
    var h := HelloWith(x, block);
    var data := RecordWith(x, block);
    assert data[5..5 + |h|] == h && Word(data, 3) == |h|;
    HelloParses(x, block, data[1] == 3 && data[2] == 0);
  }

  lemma HelloParses(x: Hello, block: Bytes, ssl3: bool)
    requires Fits(x, block)
    ensures ParseHandshake(HelloWith(x, block), ssl3) == ExtensionsFrom(block, 0)
  {
    hide Front, ExtensionsFrom, ExtensionsAt;
    ExtensionsOfFront(x, Two(|block|) + block + x.moreRecord);
    BlockAt(HelloWith(x, block), Front(x), block, x.moreRecord);
  }

  lemma {:induction false} ExtensionsRunOut(d: Bytes, pos: nat, es: seq<Extension>)
    requires OtherExtensions(es) && At(d, pos, ExtensionsBytes(es))
    ensures ExtensionsFrom(d, pos) == Fail(-2)
    decreases |es|
  {
    hide ExtensionBytes;
    if es != [] {
      var e := es[0];
      assert e in es;
      assert ExtensionsBytes(es) == ExtensionBytes(e) + ExtensionsBytes(es[1..]);
      ExtensionAt(d, pos, e, ExtensionsBytes(es[1..]));
      assert !(d[pos] == 0 && d[pos + 1] == 0);
      ExtensionsRunOut(d, pos + 4 + |e.body|, es[1..]);
    }
  }

  lemma {:induction false} NamesRunOut(d: Bytes, pos: nat, es: seq<Named>)
    requires OtherNames(es) && At(d, pos, NamesBytes(es))
    ensures NamesFrom(d, pos) == if es == [] || es[|es| - 1].name != [] then Fail(-2) else Fail(-5)
    decreases |es|
  {
    hide NameBytes;
    if es != [] {
      var e := es[0];
      assert e in es;
      assert NamesBytes(es) == NameBytes(e) + NamesBytes(es[1..]);
      NameAt(d, pos, e, NamesBytes(es[1..]));
      NamesRunOut(d, pos + 3 + |e.name|, es[1..]);
      if |es| == 1 {
        assert NamesBytes(es[1..]) == [];
      } else {
        NamesNonempty(es[1..]);
      }
    }
  }

  lemma NamesNonempty(es: seq<Named>)
    requires OtherNames(es) && es != []
    ensures |NamesBytes(es)| >= 3
  {
    assert es[0] in es;
  }

  /** A hello that ends behind its compression methods has no name in SSL 3, and is invalid in TLS. */
  lemma NoExtensions(x: Hello, ssl3: bool)
    requires |x.fixed| == 37 && |x.sessionId| < 256 && |x.suites| < 0x1_0000 && |x.methods| < 256
    ensures ParseHandshake(Front(x), ssl3) == if ssl3 then Fail(-2) else Fail(-5)
  {
    hide Front, ExtensionsFrom, ExtensionsAt;
    ExtensionsOfFront(x, []);
    assert Front(x) + [] == Front(x);
  }

  /** A hello without a server name, whatever other extensions it has, gives "no name". */
  lemma NoServerName(x: Hello)
    requires OtherExtensions(x.otherExtensions) && Fits(x, ExtensionsBytes(x.otherExtensions))
    ensures ParseRecord(RecordWith(x, ExtensionsBytes(x.otherExtensions))) == Fail(-2)
  {
    hide ExtensionsFrom, ExtensionsBytes, ParseRecord, RecordWith;
    var block := ExtensionsBytes(x.otherExtensions);
    RecordParses(x, block);
    assert block[0..] == block;
    ExtensionsRunOut(block, 0, x.otherExtensions);
  }

  /** A server name extension without a host name gives "no name" too, unless its last entry is empty: that is invalid. */
  lemma NoHostName(x: Hello, body: Bytes, block: Bytes)
    requires Fits(x, block) && |x.listLen| == 2 && OtherExtensions(x.otherExtensions)
    requires OtherNames(x.otherNames) && body == x.listLen + NamesBytes(x.otherNames) && |body| < 0x1_0000
    requires block == ExtensionsBytes(x.otherExtensions) + (ExtensionBytes(Extension(0, body)) + x.moreExtensions)
    ensures var es := x.otherNames;
            ParseRecord(RecordWith(x, block)) == if es == [] || es[|es| - 1].name != [] then Fail(-2) else Fail(-5)
  {
    hide ExtensionsFrom, ExtensionsBytes, NamesFrom, NamesBytes, ParseRecord, RecordWith;
    RecordParses(x, block);
    assert block[0..] == block;
    ExtensionFound(block, 0, x.otherExtensions, body, x.moreExtensions);
    assert body[2..] == NamesBytes(x.otherNames);
    NamesRunOut(body, 2, x.otherNames);
  }
}
