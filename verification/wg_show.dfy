/** Reading the tab-separated dump of all WireGuard interfaces, and writing one to be read. */
module WgShow {
  import opened Wrappers
  import opened Strings

  datatype Peer = Peer(publicKey: string, endpoint: string, allowedIps: seq<string>, latestHandshake: int,
                       rx: int, tx: int, keepalive: int, available: bool)

  datatype Iface = Iface(name: string, privateKey: string, publicKey: string, listenPort: int, fwmark: int,
                         up: bool, peers: seq<Peer>)

  type Ifaces = map<string, Iface>

  datatype Result = Parsed(ifaces: Ifaces) | UnknownInterface(name: string)

  function NoneToEmpty(s: string): string {
    if s == "(none)" || s == "off" then "" else s
  }

  // ---- Parsing ---------------------------------------------------------------------------------------

  function IfaceOf(f: seq<string>): Iface
    requires |f| == 5
  {
    Iface(f[0], NoneToEmpty(f[1]), NoneToEmpty(f[2]), ParseInt(f[3]), ParseInt(f[4]), true, [])
  }

  function PeerOf(f: seq<string>): Peer
    requires |f| == 9
  {
    Peer(f[1], NoneToEmpty(f[3]), if f[4] == "(none)" then [] else Split(f[4], ','),
         ParseInt64(f[5]), ParseInt64(f[6]), ParseInt64(f[7]), ParseInt(f[8]), ParseInt64(f[5]) > 0)
  }

  function AddPeer(t: Ifaces, name: string, p: Peer): Result {
    if name in t then Parsed(t[name := t[name].(peers := t[name].peers + [p])]) else UnknownInterface(name)
  }

  function AddFields(t: Ifaces, f: seq<string>): Result {
    if |f| == 5 then Parsed(t[f[0] := IfaceOf(f)])
    else if |f| == 9 then AddPeer(t, f[0], PeerOf(f))
    else Parsed(t)
  }

  function AddLine(t: Ifaces, line: string): Result {
    var l := Trim(line);
    if l == "" then Parsed(t) else AddFields(t, Split(l, '\t'))
  }

  function AddLines(lines: seq<string>): Result {
    if lines == [] then Parsed(map[])
    else
      var before := AddLines(lines[..|lines| - 1]);
      if before.Parsed? then AddLine(before.ifaces, lines[|lines| - 1]) else before
  }

  method ParseWGShow(raw: string) returns (r: Result)
    ensures r == AddLines(Split(raw, '\n'))
  {
    var lines := Split(raw, '\n');
    var result: Ifaces := map[];
    for i := 0 to |lines|
      invariant AddLines(lines[..i]) == Parsed(result)
    {
      assert lines[..i + 1][..i] == lines[..i];
      var line := Trim(lines[i]);
      if line == "" {
        continue;
      }
      var fields := Split(line, '\t');
      if |fields| == 5 {
        result := result[fields[0] := IfaceOf(fields)];
      } else if |fields| == 9 {
        if fields[0] !in result {
          Rejected(lines, i + 1);
          return UnknownInterface(fields[0]);
        }
        var iface := result[fields[0]];
        result := result[fields[0] := iface.(peers := iface.peers + [PeerOf(fields)])];
      }
    }
    assert lines[..|lines|] == lines;
    r := Parsed(result);
  }

  lemma {:induction false} Rejected(lines: seq<string>, n: nat)
    requires n <= |lines| && AddLines(lines[..n]).UnknownInterface?
    ensures AddLines(lines) == AddLines(lines[..n])
    decreases |lines|
  {
    if n < |lines| {
      var front := lines[..|lines| - 1];
      assert front[..n] == lines[..n];
      Rejected(front, n);
    } else {
      assert lines[..n] == lines;
    }
  }

  // ---- Writing ---------------------------------------------------------------------------------------

  /** One line of a dump; a peer's line also holds a preshared key, which the agent does not keep. */
  datatype Row = IfaceRow(iface: Iface) | PeerRow(name: string, psk: string, peer: Peer)

  function OrNone(s: string): string { if s == "" then "(none)" else s }

  function NumberOrOff(n: int): string
    requires n >= 0
  {
    if n == 0 then "off" else Digits(n, 10)
  }

  function MarkOrOff(n: int): string
    requires n >= 0
  {
    if n == 0 then "off" else "0x" + Digits(n, 16)
  }

  function Fields(r: Row): (f: seq<string>)
    requires Clean(r)
    ensures |f| == if r.IfaceRow? then 5 else 9
  {
    match r
    case IfaceRow(i) => [i.name, OrNone(i.privateKey), OrNone(i.publicKey), Digits(i.listenPort, 10),
        MarkOrOff(i.fwmark)]
    case PeerRow(name, psk, p) =>
      [name, p.publicKey, psk, OrNone(p.endpoint), if p.allowedIps == [] then "(none)" else Join(p.allowedIps, ','),
       Digits(p.latestHandshake, 10), Digits(p.rx, 10), Digits(p.tx, 10), NumberOrOff(p.keepalive)]
  }

  function Line(r: Row): string
    requires Clean(r)
  {
    Join(Fields(r), '\t')
  }

  predicate CleanField(s: string) { '\t' !in s && '\n' !in s }

  /** A name begins its line, so it must not be taken for white space. */
  predicate CleanName(s: string) { CleanField(s) && s != "" && !Space(s[0]) }

  /** A text that may be absent must not look as if it were. */
  predicate CleanOptional(s: string) { CleanField(s) && s != "(none)" && s != "off" }

  predicate Countable(n: int) { 0 <= n <= MaxInt64 }

  predicate CleanIps(ips: seq<string>) {
    ips != ["(none)"] && forall ip :: ip in ips ==> CleanField(ip) && ',' !in ip
  }

  predicate CleanPeer(p: Peer) {
    && CleanField(p.publicKey) && CleanOptional(p.endpoint) && CleanIps(p.allowedIps)
    && Countable(p.latestHandshake) && Countable(p.rx) && Countable(p.tx) && Countable(p.keepalive)
    && p.available == (p.latestHandshake > 0)
  }

  predicate CleanIface(i: Iface) {
    && CleanName(i.name) && CleanOptional(i.privateKey) && CleanOptional(i.publicKey)
    && Countable(i.listenPort) && Countable(i.fwmark) && i.up
  }

  predicate Clean(r: Row) {
    match r
    case IfaceRow(i) => CleanIface(i)
    case PeerRow(name, psk, p) => CleanName(name) && CleanField(psk) && CleanPeer(p)
  }

  function Lines(rows: seq<Row>): (ls: seq<string>)
    requires forall r :: r in rows ==> Clean(r)
    ensures |ls| == |rows| && forall i :: 0 <= i < |rows| ==> ls[i] == Line(rows[i])
  {
    seq(|rows|, i requires 0 <= i < |rows| => Line(rows[i]))
  }

  /** The whole dump: every line ends in a newline. */
  function Dump(rows: seq<Row>): string
    requires forall r :: r in rows ==> Clean(r)
  {
    Join(Lines(rows) + [""], '\n')
  }

  // ---- What a dump means --------------------------------------------------------------------------

  function Meaning(rows: seq<Row>): Result {
    if rows == [] then Parsed(map[])
    else
      var before := Meaning(rows[..|rows| - 1]);
      if before.UnknownInterface? then before
      else
        match rows[|rows| - 1]
        case IfaceRow(i) => Parsed(before.ifaces[i.name := i.(peers := [])])
        case PeerRow(name, _, p) => AddPeer(before.ifaces, name, p)
  }

  lemma {:induction false} JoinAvoids(parts: seq<string>, c: char, d: char)
    requires c != d && forall p :: p in parts ==> d !in p
    ensures d !in Join(parts, c)
  {
    if |parts| > 0 {
      assert parts[0] in parts;
      JoinAvoids(parts[1..], c, d);
    }
  }

  lemma {:induction false} JoinEnds(parts: seq<string>, c: char)
    requires |parts| >= 1 && parts[0] != "" && parts[|parts| - 1] != ""
    ensures var s := Join(parts, c); var last := parts[|parts| - 1];
            s != "" && s[0] == parts[0][0] && s[|s| - 1] == last[|last| - 1]
  {
    if |parts| > 1 {
      JoinLast(parts[1..], c);
      assert parts[1..][|parts[1..]| - 1] == parts[|parts| - 1];
    }
  }

  lemma {:induction false} JoinLast(parts: seq<string>, c: char)
    requires |parts| >= 1 && parts[|parts| - 1] != ""
    ensures var s := Join(parts, c); var last := parts[|parts| - 1]; s != "" && s[|s| - 1] == last[|last| - 1]
  {
    if |parts| > 1 {
      assert parts[1..][|parts[1..]| - 1] == parts[|parts| - 1];
      JoinLast(parts[1..], c);
    }
  }

  lemma {:induction false} DigitsAreClean(n: nat, base: nat)
    requires 2 <= base <= 16
    ensures var s := Digits(n, base); CleanField(s) && ',' !in s && !Space(s[|s| - 1])
  {
    DigitsAreDigits(n, base);
    var s := Digits(n, base);
    assert s[|s| - 1] in s;
  }

  lemma {:induction false} FieldsAreClean(r: Row)
    requires Clean(r)
    ensures forall f :: f in Fields(r) ==> CleanField(f)
    ensures var last := Fields(r)[|Fields(r)| - 1]; last != "" && !Space(last[|last| - 1])
    ensures Fields(r)[0] != "" && !Space(Fields(r)[0][0])
  {
    match r
    case IfaceRow(i) =>
      DigitsAreClean(i.listenPort, 10);
      DigitsAreClean(i.fwmark, 16);
    case PeerRow(_, _, p) =>
      DigitsAreClean(p.latestHandshake, 10);
      DigitsAreClean(p.rx, 10);
      DigitsAreClean(p.tx, 10);
      DigitsAreClean(p.keepalive, 10);
      JoinAvoids(p.allowedIps, ',', '\t');
      JoinAvoids(p.allowedIps, ',', '\n');
  }

  /** A written line is read as the fields it was written from. */
  lemma LineSplits(r: Row)
    requires Clean(r)
    ensures '\n' !in Line(r) && Trim(Line(r)) == Line(r) != "" && Split(Line(r), '\t') == Fields(r)
  {
    FieldsAreClean(r);
    JoinEnds(Fields(r), '\t');
    JoinAvoids(Fields(r), '\t', '\n');
    SplitJoin(Fields(r), '\t');
  }

  lemma IfaceFieldsRead(i: Iface)
    requires CleanIface(i)
    ensures IfaceOf(Fields(IfaceRow(i))) == i.(peers := [])
  {
    DecimalRoundTrip(i.listenPort);
    HexRoundTrip(i.fwmark);
  }

  lemma AllowedIpsRead(ips: seq<string>)
    requires CleanIps(ips) && ips != []
    ensures Join(ips, ',') != "(none)" && Split(Join(ips, ','), ',') == ips
  {
    SplitJoin(ips, ',');
    if Join(ips, ',') == "(none)" {
      SplitPlain("(none)", ',');
    }
  }

  lemma PeerFieldsRead(name: string, psk: string, p: Peer)
    requires Clean(PeerRow(name, psk, p))
    ensures PeerOf(Fields(PeerRow(name, psk, p))) == p
  {
    DecimalRoundTrip(p.latestHandshake);
    DecimalRoundTrip(p.rx);
    DecimalRoundTrip(p.tx);
    DecimalRoundTrip(p.keepalive);
    if p.allowedIps != [] {
      AllowedIpsRead(p.allowedIps);
    }
  }

  lemma {:induction false} LinesMean(rows: seq<Row>)
    requires forall r :: r in rows ==> Clean(r)
    ensures AddLines(Lines(rows)) == Meaning(rows)
  {
    if rows != [] {
      var front, last := rows[..|rows| - 1], rows[|rows| - 1];
      assert last in rows && forall r :: r in front ==> r in rows;
      LinesMean(front);
      assert Lines(rows)[..|rows| - 1] == Lines(front);
      LineSplits(last);
      match last
      case IfaceRow(i) => IfaceFieldsRead(i);
      case PeerRow(name, psk, p) => PeerFieldsRead(name, psk, p);
    }
  }

  /** Parsing a dump of any clean rows, in any order, gives what the rows mean. */
  lemma {:induction false} ParsingInvertsDumping(rows: seq<Row>)
    requires forall r :: r in rows ==> Clean(r)
    ensures AddLines(Split(Dump(rows), '\n')) == Meaning(rows)
  {
    var ls := Lines(rows) + [""];
    forall l | l in ls ensures '\n' !in l {
      if l != "" {
        var i :| 0 <= i < |rows| && l == Lines(rows)[i];
        assert rows[i] in rows;
        LineSplits(rows[i]);
      }
    }
    SplitJoin(ls, '\n');
    assert ls[..|ls| - 1] == Lines(rows);
    LinesMean(rows);
  }

  // ---- Rejection ------------------------------------------------------------------------------------

  predicate Introduced(rows: seq<Row>, name: string) {
    exists k :: 0 <= k < |rows| && rows[k].IfaceRow? && rows[k].iface.name == name
  }

  ghost predicate AllIntroduced(rows: seq<Row>) {
    forall i :: 0 <= i < |rows| && rows[i].PeerRow? ==> Introduced(rows[..i], rows[i].name)
  }

  /** A dump is accepted exactly when every peer's line comes after a line of its interface. */
  lemma {:induction false} AcceptedIff(rows: seq<Row>)
    ensures Meaning(rows).Parsed? <==> AllIntroduced(rows)
    ensures Meaning(rows).Parsed? ==> forall name :: name in Meaning(rows).ifaces <==> Introduced(rows, name)
  {
    if rows != [] {
      var front, last := rows[..|rows| - 1], rows[|rows| - 1];
      AcceptedIff(front);
      assert forall i :: 0 <= i < |front| ==> front[i] == rows[i] && front[..i] == rows[..i];
      assert AllIntroduced(rows) <==> AllIntroduced(front) && (last.PeerRow? ==> Introduced(front, last.name));
      forall name ensures Introduced(rows, name) <==>
          Introduced(front, name) || (last.IfaceRow? && last.iface.name == name) {
        if Introduced(front, name) {
          var k :| 0 <= k < |front| && front[k].IfaceRow? && front[k].iface.name == name;
          assert rows[k] == front[k];
        }
        if last.IfaceRow? && last.iface.name == name {
          assert rows[|rows| - 1] == last;
        }
      }
    }
  }

  // ---- Whole interfaces -------------------------------------------------------------------------------

  /** An interface with the preshared keys of its peers. */
  datatype Entry = Entry(iface: Iface, psks: seq<string>)

  function PeerRows(e: Entry, n: nat): seq<Row>
    requires n <= |e.iface.peers| == |e.psks|
  {
    if n == 0 then [] else PeerRows(e, n - 1) + [PeerRow(e.iface.name, e.psks[n - 1], e.iface.peers[n - 1])]
  }

  /** Each interface's line, then its peers' lines. */
  function Rows(es: seq<Entry>): seq<Row>
    requires forall e :: e in es ==> |e.iface.peers| == |e.psks|
  {
    if es == [] then []
    else
      var e := es[|es| - 1];
      Rows(es[..|es| - 1]) + [IfaceRow(e.iface)] + PeerRows(e, |e.psks|)
  }

  function Named(es: seq<Entry>): Ifaces {
    if es == [] then map[] else Named(es[..|es| - 1])[es[|es| - 1].iface.name := es[|es| - 1].iface]
  }

  lemma MeaningOneMore(rows: seq<Row>, r: Row)
    requires Meaning(rows).Parsed?
    ensures Meaning(rows + [r]) ==
            match r
            case IfaceRow(i) => Parsed(Meaning(rows).ifaces[i.name := i.(peers := [])])
            case PeerRow(name, _, p) => AddPeer(Meaning(rows).ifaces, name, p)
  {
    assert (rows + [r])[..|rows + [r]| - 1] == rows;
  }

  lemma {:induction false} PeersAccumulate(before: seq<Row>, t: Ifaces, e: Entry, n: nat)
    requires Meaning(before) == Parsed(t) && n <= |e.iface.peers| == |e.psks|
    ensures Meaning(before + [IfaceRow(e.iface)] + PeerRows(e, n)) ==
            Parsed(t[e.iface.name := e.iface.(peers := e.iface.peers[..n])])
    decreases n
  {
    var head := before + [IfaceRow(e.iface)];
    if n == 0 {
      MeaningOneMore(before, IfaceRow(e.iface));
      assert head + [] == head;
    } else {
      var row := PeerRow(e.iface.name, e.psks[n - 1], e.iface.peers[n - 1]);
      PeersAccumulate(before, t, e, n - 1);
      MeaningOneMore(head + PeerRows(e, n - 1), row);
      assert head + PeerRows(e, n) == head + PeerRows(e, n - 1) + [row];
      OnePeerMore(t, e.iface, n);
    }
  }

  lemma OnePeerMore(t: Ifaces, iface: Iface, n: nat)
    requires 0 < n <= |iface.peers|
    ensures AddPeer(t[iface.name := iface.(peers := iface.peers[..n - 1])], iface.name, iface.peers[n - 1])
         == Parsed(t[iface.name := iface.(peers := iface.peers[..n])])
  {
    assert iface.peers[..n] == iface.peers[..n - 1] + [iface.peers[n - 1]];
  }

  lemma {:induction false} RowsMean(es: seq<Entry>)
    requires forall e :: e in es ==> |e.iface.peers| == |e.psks|
    ensures Meaning(Rows(es)) == Parsed(Named(es))
  {
    if es != [] {
      var front, e := es[..|es| - 1], es[|es| - 1];
      assert e in es && forall x :: x in front ==> x in es;
      RowsMean(front);
      PeersAccumulate(Rows(front), Named(front), e, |e.psks|);
      assert e.iface.peers[..|e.psks|] == e.iface.peers;
    }
  }

  lemma {:induction false} NamedAt(es: seq<Entry>, i: nat)
    requires i < |es| && forall a, b :: 0 <= a < b < |es| ==> es[a].iface.name != es[b].iface.name
    ensures es[i].iface.name in Named(es) && Named(es)[es[i].iface.name] == es[i].iface
  {
    if i < |es| - 1 {
      NamedAt(es[..|es| - 1], i);
    }
  }

  lemma {:induction false} NamedOnly(es: seq<Entry>, name: string)
    requires name in Named(es)
    ensures exists i :: 0 <= i < |es| && es[i].iface.name == name
  {
    var front := es[..|es| - 1];
    if es[|es| - 1].iface.name != name {
      NamedOnly(front, name);
      var i :| 0 <= i < |front| && front[i].iface.name == name;
      assert es[i] == front[i];
    }
  }

  ghost predicate CleanRows(rows: seq<Row>) { forall r :: r in rows ==> Clean(r) }

  /**
   * Round trip. A table of interfaces with distinct names and clean fields, written out and parsed,
   * comes back whole: the same names, and under each name the same interface with its peers in order.
   */
  lemma {:induction false} TableRoundTrip(es: seq<Entry>)
    requires forall e :: e in es ==> |e.iface.peers| == |e.psks|
    requires forall a, b :: 0 <= a < b < |es| ==> es[a].iface.name != es[b].iface.name
    requires CleanRows(Rows(es))
    ensures var r := AddLines(Split(Dump(Rows(es)), '\n'));
            && r.Parsed?
            && (forall i :: 0 <= i < |es| ==> es[i].iface.name in r.ifaces && r.ifaces[es[i].iface.name] == es[i].iface)
            && (forall name :: name in r.ifaces ==> exists i :: 0 <= i < |es| && es[i].iface.name == name)
  {
    ParsingInvertsDumping(Rows(es));
    RowsMean(es);
    var t := Named(es);
    forall i | 0 <= i < |es| ensures es[i].iface.name in t && t[es[i].iface.name] == es[i].iface {
      NamedAt(es, i);
    }
    forall name | name in t ensures exists i :: 0 <= i < |es| && es[i].iface.name == name {
      NamedOnly(es, name);
    }
  }

  // ---- Filtering ----------------------------------------------------------------------------------

  method FilterInterfaces(ifaces: Ifaces, unmanaged: seq<string>, redact: bool) returns (kept: Ifaces)
    ensures forall name :: name in kept <==> name in ifaces && name !in unmanaged
    ensures forall name :: name in kept ==>
              kept[name] == if redact then ifaces[name].(privateKey := "") else ifaces[name]
  {
    kept := ifaces;
    for i := 0 to |unmanaged|
      invariant forall name :: name in kept <==> name in ifaces && name !in unmanaged[..i]
      invariant forall name :: name in kept ==> kept[name] == ifaces[name]
    {
      kept := kept - {unmanaged[i]};
    }
    assert unmanaged[..|unmanaged|] == unmanaged;
    if redact {
      var rest := kept.Keys;
      while rest != {}
        invariant rest <= kept.Keys
        invariant forall name :: name in kept <==> name in ifaces && name !in unmanaged
        invariant forall name :: name in kept ==>
                    kept[name] == if name in rest then ifaces[name] else ifaces[name].(privateKey := "")
        decreases |rest|
      {
        var name :| name in rest;
        kept := kept[name := kept[name].(privateKey := "")];
        rest := rest - {name};
      }
    }
  }
}
