/** Parsing and printing of addresses (snova/util/address.cc). */
module NetAddresses {
  import opened Wire

  datatype NetAddress = NetAddress(schema: string, host: string, port: U16, path: string)

  // ---- absl::StrSplit ----

  /** The parts between the occurrences of the separator, found from the left. */
  function Split(s: string, sep: string): (parts: seq<string>)
    requires sep != ""
    ensures |parts| >= 1 && parts[0] <= s
    ensures |parts| == 1 ==> parts[0] == s
    decreases |s|
  {
    if sep <= s then [""] + Split(s[|sep|..], sep)
    else if s == "" then [""]
    else Glued([s[0]], Split(s[1..], sep))
  }

  /** Text put before the first part. */
  function Glued(u: string, parts: seq<string>): (r: seq<string>)
    requires parts != []
    ensures |r| == |parts| && r[0] == u + parts[0]
  {
    [u + parts[0]] + parts[1..]
  }

  lemma GluedAppend(u: string, v: string, p: seq<string>, q: seq<string>)
    requires p != []
    ensures Glued(u, p) + q == Glued(u, p + q)
    ensures Glued(u, Glued(v, p)) == Glued(u + v, p)
  {
    assert u + (v + p[0]) == (u + v) + p[0];
  }

  lemma SplitEmpty(sep: string)
    requires sep != ""
    ensures Split("", sep) == [""]
  {
  }

  lemma SplitHit(s: string, sep: string, t: string)
    requires sep != "" && s == sep + t
    ensures Split(s, sep) == [""] + Split(t, sep)
  {
    assert s[|sep|..] == t;
  }

  lemma SplitMiss(s: string, sep: string, t: string)
    requires sep != "" && s != "" && !(sep <= s) && t == s[1..]
    ensures Split(s, sep) == Glued([s[0]], Split(t, sep))
  {
  }

  /** Splitting a text that was joined with the separator. */
  lemma {:induction false} SplitJoined(a: string, sep: string, b: string)
    requires sep != "" && sep[0] !in sep[1..]
    ensures Split(a + sep + b, sep) == Split(a, sep) + Split(b, sep)
    decreases |a|
  {
    hide Split, Glued;
    var s := a + sep + b;
    if a == "" {
      SplitHit(s, sep, b) by { assert s == sep + b; }
      SplitEmpty(sep);
    } else if sep <= a {
      var t := a[|sep|..];
      assert a == sep + t;
      SplitJoined(t, sep, b);
      SplitHit(a, sep, t);
      SplitHit(s, sep, t + sep + b) by { assert s == sep + (t + sep + b); }
    } else {
      var t := a[1..];
      NoSeparatorAcross(a, sep, b);
      SplitJoined(t, sep, b);
      assert s[1..] == t + sep + b && s[0] == a[0];
      SplitMiss(a, sep, t);
      SplitMiss(s, sep, t + sep + b);
      GluedAppend([a[0]], "", Split(t, sep), Split(b, sep));
    }
  }

  lemma NoSeparatorAcross(a: string, sep: string, b: string)
    requires sep != "" && sep[0] !in sep[1..] && a != "" && !(sep <= a)
    ensures !(sep <= a + sep + b)
  {
    var s := a + sep + b;
    if |a| >= |sep| {
      assert s[..|sep|] == a[..|sep|];
    } else {
      assert s[|a|] == sep[0] && sep[|a|] in sep[1..];
    }
  }

  /** One part exactly if the separator, a single character, does not occur. */
  lemma {:induction false} SplitAtChar(s: string, c: char)
    ensures |Split(s, [c])| == 1 <==> c !in s
  {
    if s != "" {
      SplitAtChar(s[1..], c);
      assert s == [s[0]] + s[1..];
    }
  }

  const MARK := "://"

  /** Text without '/' that does not end in ':' holds no part of "://". */
  lemma {:induction false} SkipAuthority(u: string, v: string)
    requires '/' !in u && (u != "" ==> u[|u| - 1] != ':')
    ensures Split(u + v, MARK) == Glued(u, Split(v, MARK))
  {
    hide Split;
    var s := u + v;
    if u == "" {
      var r := Split(v, MARK);
      assert s == v && r == [r[0]] + r[1..] && "" + r[0] == r[0];
    } else {
      var t := u[1..];
      SkipAuthority(t, v);
      assert s[1..] == t + v && s[0] == u[0];
      assert |u| > 1 ==> s[1] == u[1];
      assert !(MARK <= s);
      SplitMiss(s, MARK, t + v);
      GluedAppend([u[0]], t, Split(v, MARK), []);
      assert u == [u[0]] + t;
    }
  }

  // ---- std::stoi ----

  predicate IsDigit(c: char) { '0' <= c <= '9' }

  predicate IsSpace(c: char) { c == ' ' || '\t' <= c <= '\r' }

  /** The number that the leading digits spell, behind the number `acc`. */
  function Digits(s: string, acc: nat): nat {
    if s != "" && IsDigit(s[0]) then Digits(s[1..], 10 * acc + (s[0] - '0') as nat) else acc
  }

  /** Skips white space, takes a sign and digits, ignores what follows; no digit or no 32-bit integer is an error. */
  function Stoi(s: string): Option<int> {
    if s != "" && IsSpace(s[0]) then Stoi(s[1..])
    else
      var signed := s != "" && (s[0] == '+' || s[0] == '-');
      var digits := if signed then s[1..] else s;
      if digits == "" || !IsDigit(digits[0]) then None
      else
        var n: int := Digits(digits, 0);
        var v: int := if signed && s[0] == '-' then -n else n;
        if -0x8000_0000 <= v < 0x8000_0000 then Some(v) else None
  }

  function Decimal(n: nat): (s: string)
    ensures s != "" && forall c :: c in s ==> IsDigit(c)
  {
    var last := [(n % 10) as char + '0'];
    if n < 10 then last else Decimal(n / 10) + last
  }

  lemma {:induction false} DigitsAppend(s: string, acc: nat, c: char)
    requires IsDigit(c) && forall d :: d in s ==> IsDigit(d)
    ensures Digits(s + [c], acc) == 10 * Digits(s, acc) + (c - '0') as nat
  {
    var t := s + [c];
    if s == "" {
      assert t[0] == c && t[1..] == "";
    } else {
      assert t[0] == s[0] && t[1..] == s[1..] + [c] && IsDigit(s[0]);
      DigitsAppend(s[1..], 10 * acc + (s[0] - '0') as nat, c);
    }
  }

  lemma {:induction false} DecimalRoundTrip(n: nat)
    ensures Digits(Decimal(n), 0) == n
  {
    var c := (n % 10) as char + '0';
    if n < 10 {
      assert Decimal(n)[0] == c && Decimal(n)[1..] == "";
    } else {
      DecimalRoundTrip(n / 10);
      DigitsAppend(Decimal(n / 10), 0, c);
    }
  }

  lemma StoiDecimal(n: U16)
    ensures Stoi(Decimal(n)) == Some(n)
  {
    hide Stoi, Decimal;
    StoiOfDecimal(n);
  }

  // ---- NetAddress ----

  function DefaultPort(schema: string): U16 {
    if schema == "https" || schema == "tls" || schema == "doh" then 443
    else if schema == "http" then 80
    else if schema == "dns" then 53
    else if schema == "dot" then 853
    else 0
  }

  /** The position of the first '/', or the length. */
  function Slash(s: string): (i: nat)
    ensures i <= |s| && '/' !in s[..i] && (i < |s| ==> s[i] == '/')
  {
    if s == "" || s[0] == '/' then 0 else
      var i := 1 + Slash(s[1..]);
      assert s[..i] == [s[0]] + s[1..][..i - 1];
      i
  }

  /** What Parse does behind the schema. */
  function ParseAuthority(schema: string, url: string): (r: Option<NetAddress>)
    ensures r.Some? ==> r.value.schema == schema && r.value.host != "" && '/' !in r.value.host
  {
    var pos := Slash(url);
    var hostPort := url[..pos];
    var path := if |url| > pos + 1 then url[pos + 1..] else "";
    var parts := Split(hostPort, ":");
    var view := if |parts| != 2 then hostPort else parts[0];
    var host := if view == "" then "0.0.0.0" else view;
    var number := if |parts| != 2 then Some(0) else Stoi(parts[1]);
    if number.None? then None
    else
      var port := number.value % 0x1_0000;
      Some(NetAddress(schema, host, if port == 0 then DefaultPort(schema) else port, path))
  }

  function Parse(addr: string): (r: Option<NetAddress>)
    ensures r.Some? ==> r.value.host != "" && '/' !in r.value.host
  {
    var parts := Split(addr, MARK);
    if |parts| == 2 then ParseAuthority(parts[0], parts[1]) else ParseAuthority("", addr)
  }

  function Authority(a: NetAddress): string {
    a.host + ":" + Decimal(a.port) + if a.path == "" then "" else "/" + a.path
  }

  function Print(a: NetAddress): string {
    (if a.schema == "" then "" else a.schema + MARK) + Authority(a)
  }

  /** How often "://" occurs. */
  function Marks(s: string): nat { |Split(s, MARK)| - 1 }

  /** Exactly the addresses that survive printing: a host, without ':' and '/'; a port, unless the schema has no
      default; and no second "://": with a schema none anywhere else, without one not a single one in the path. */
  predicate Printable(a: NetAddress) {
    && a.host != "" && ':' !in a.host && '/' !in a.host
    && (a.port != 0 || DefaultPort(a.schema) == 0)
    && (if a.schema == "" then Marks(a.path) != 1 else Marks(a.schema) == 0 && Marks(a.path) == 0)
  }

  /** The printed authority, as the schema split sees it. */
  lemma AuthoritySplit(a: NetAddress)
    requires '/' !in a.host
    ensures var r := Split(Authority(a), MARK); |r| == Marks(a.path) + 1 && r[0] != ""
  {
    hide Split, Decimal;
    var d := Decimal(a.port);
    var u := a.host + ":" + d;
    assert '/' !in u && u[|u| - 1] == d[|d| - 1] && d[|d| - 1] in d;
    if a.path == "" {
      SkipAuthority(u, "");
      assert Authority(a) == u + "";
    } else {
      var tail := "/" + a.path;
      SkipAuthority(u, tail);
      assert tail[0] != MARK[0] && tail[1..] == a.path;
      SplitMiss(tail, MARK, a.path);
      assert Authority(a) == u + tail;
    }
  }

  /** The printed authority is read back; a host with ':' takes the port with it. */
  lemma AuthorityParsed(a: NetAddress, schema: string)
    requires '/' !in a.host && a.host != ""
    ensures ParseAuthority(schema, Authority(a)) ==
            Some(if ':' in a.host then NetAddress(schema, a.host + ":" + Decimal(a.port), DefaultPort(schema), a.path)
                 else NetAddress(schema, a.host, if a.port == 0 then DefaultPort(schema) else a.port, a.path))
  {
    hide Split, Decimal, DefaultPort, Slash, Stoi, Authority;
    var d := Decimal(a.port);
    var u := a.host + ":" + d;
    var url := Authority(a);
    AuthorityShape(a);
    SlashAt(url, |u|);
    SplitJoined(a.host, ":", d);
    SplitAtChar(a.host, ':');
    SplitAtChar(d, ':');
    StoiDecimal(a.port);
  }

  /** Host and port up to the first slash, the path behind it. */
  lemma AuthorityShape(a: NetAddress)
    requires '/' !in a.host
    ensures var u := a.host + ":" + Decimal(a.port); var url := Authority(a);
            && |u| <= |url| && url[..|u|] == u && '/' !in u
            && (if a.path == "" then |url| == |u| else |url| > |u| + 1 && url[|u|] == '/' && url[|u| + 1..] == a.path)
  {
    hide Decimal;
  }

  lemma SlashAt(s: string, i: nat)
    requires i <= |s| && '/' !in s[..i] && (i < |s| ==> s[i] == '/')
    ensures Slash(s) == i
  {
    hide Slash;
    var j := Slash(s);
    forall k | 0 <= k < i ensures s[k] != '/' { assert s[k] in s[..i]; }
    forall k | 0 <= k < j ensures s[k] != '/' { assert s[k] in s[..j]; }
  }

  /** Parsing gives a printed address back exactly if it is printable. */
  lemma ParsePrintedExactlyWhen(a: NetAddress)
    ensures Parse(Print(a)) == Some(a) <==> Printable(a)
  {
    hide Split, Decimal, DefaultPort, ParseAuthority, Authority;
    if '/' !in a.host && a.host != "" {
      AuthoritySplit(a);
      var rest := Authority(a);
      if a.schema == "" {
        assert Print(a) == rest;
      } else {
        SplitJoined(a.schema, MARK, rest);
        assert Print(a) == a.schema + MARK + rest;
      }
      AuthorityParsed(a, a.schema);
    }
  }

  // ---- Defaults and ports ----

  /** The default ports: 443 for https, tls and doh; 80 for http; 53 for dns; 853 for dot; and none for any other schema. */
  predicate HasDefault(schema: string, port: U16) {
    || (port == 443 && (schema == "https" || schema == "tls" || schema == "doh"))
    || (port == 80 && schema == "http")
    || (port == 53 && schema == "dns")
    || (port == 853 && schema == "dot")
    || (port == 0 && schema !in ["https", "tls", "doh", "http", "dns", "dot"])
  }

  lemma DefaultPorts(schema: string)
    ensures HasDefault(schema, DefaultPort(schema))
  {
  }

  /** `schema://host` without a port gets the default port of its schema, and an empty host stands for every interface. */
  lemma ParseWithoutPort(schema: string, host: string)
    requires Marks(schema) == 0 && ':' !in host && '/' !in host
    ensures var r := Parse(schema + MARK + host);
            && r.Some? && r.value.schema == schema && r.value.path == ""
            && r.value.host == (if host == "" then "0.0.0.0" else host)
            && HasDefault(schema, r.value.port)
  {
    hide Split, DefaultPort, HasDefault, ParseAuthority;
    SplitJoined(schema, MARK, host);
    NoMark(host);
    DefaultPorts(schema);
    BareHost(schema, host);
  }

  lemma NoMark(host: string)
    requires ':' !in host && '/' !in host
    ensures Split(host, MARK) == [host]
  {
    hide Split;
    SkipAuthority(host, "");
    SplitEmpty(MARK);
    assert host + "" == host;
  }

  lemma BareHost(schema: string, host: string)
    requires ':' !in host && '/' !in host
    ensures ParseAuthority(schema, host) ==
            Some(NetAddress(schema, if host == "" then "0.0.0.0" else host, DefaultPort(schema), ""))
  {
    hide Split, DefaultPort, Slash, Stoi;
    assert host[..|host|] == host;
    SlashAt(host, |host|);
    SplitAtChar(host, ':');
  }

  /** Without a schema, a host and any decimal number: numbers that do not fit a 32-bit integer are an error, others are cut
      down to sixteen bits. */
  lemma ParseAnyPort(host: string, n: nat)
    requires ':' !in host && '/' !in host
    ensures Parse(host + ":" + Decimal(n)) ==
            if n < 0x8000_0000 then Some(NetAddress("", if host == "" then "0.0.0.0" else host, n % 0x1_0000, "")) else None
  {
    hide Split, Decimal, DefaultPort, Slash, Stoi;
    var d := Decimal(n);
    var u := host + ":" + d;
    assert '/' !in u && u[|u| - 1] == d[|d| - 1] && d[|d| - 1] in d;
    SkipAuthority(u, "");
    SplitEmpty(MARK);
    assert u + "" == u && u[..|u|] == u;
    SlashAt(u, |u|);
    SplitJoined(host, ":", d);
    SplitAtChar(host, ':');
    SplitAtChar(d, ':');
    StoiOfDecimal(n);
    NoDefault();
  }

  lemma StoiOfDecimal(n: nat)
    ensures Stoi(Decimal(n)) == if n < 0x8000_0000 then Some(n) else None
  {
    DecimalRoundTrip(n);
    assert IsDigit(Decimal(n)[0]);
  }

  /** What else std::stoi accepts: white space in front, a sign, and anything that is no digit behind. */
  lemma StoiForms(n: nat, space: char, rest: string)
    requires IsSpace(space) && (rest != "" ==> !IsDigit(rest[0]))
    ensures var d := Decimal(n) + rest;
            && Stoi([space] + d) == Stoi(d) == Stoi("+" + d) == (if n < 0x8000_0000 then Some(n) else None)
            && Stoi("-" + d) == if n <= 0x8000_0000 then Some(-(n as int)) else None
    ensures Stoi(rest) == Stoi([space] + rest) && Stoi("") == None
  {
    var d := Decimal(n) + rest;
    DecimalRoundTrip(n);
    DigitsStop(Decimal(n), 0, rest);
    assert d[0] == Decimal(n)[0] && IsDigit(d[0]);
    assert ([space] + d)[1..] == d && ("+" + d)[1..] == d && ("-" + d)[1..] == d && ([space] + rest)[1..] == rest;
  }

  lemma {:induction false} DigitsStop(s: string, acc: nat, rest: string)
    requires (forall c :: c in s ==> IsDigit(c)) && (rest != "" ==> !IsDigit(rest[0]))
    ensures Digits(s + rest, acc) == Digits(s, acc)
  {
    if s == "" {
      assert s + rest == rest;
    } else {
      assert (s + rest)[0] == s[0] && (s + rest)[1..] == s[1..] + rest && IsDigit(s[0]);
      DigitsStop(s[1..], 10 * acc + (s[0] - '0') as nat, rest);
    }
  }

  lemma NoDefault()
    ensures DefaultPort("") == 0
  {
  }
}
