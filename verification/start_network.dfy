/** Composing the request that starts a data call: optional elements written in place into a fixed buffer. */
module StartNetwork {
  import opened Wrappers
  import opened Bytes
  import opened QmiTlv

  const BufferSize: nat := 256
  const Wds: byte := 0x01
  const StartNetworkInterface: nat := 0x0020

  /** The part of a profile a data call depends on; the integers are C ints. */
  datatype Profile = Profile(apn: Option<Text>, user: Option<Text>, password: Option<Text>, auth: int, pdp: int,
      family: int)

  // The credentials a CDMA network gets when the profile has none.
  const CdmaUser: Text := [99, 116, 110, 101, 116, 64, 109, 121, 99, 100, 109, 97, 46, 99, 110]
  const CdmaPassword: Text := [118, 110, 101, 116, 46, 109, 111, 98, 105]

  predicate Blank(t: Option<Text>) { t.None? || t.value == [] }

  function Credentials(p: Profile, cdma: bool): (Option<Text>, Option<Text>, int) {
    if cdma && Blank(p.user) && Blank(p.password) then (Some(CdmaUser), Some(CdmaPassword), 2)
    else (p.user, p.password, p.auth)
  }

  /** Assigning a C int to an unsigned char. */
  function Truncated(n: int): byte { n % 256 }

  function TextTlv(kind: byte, t: Option<Text>): seq<Tlv> {
    if t.Some? then [Tlv(kind, t.value)] else []
  }

  function ByteTlv(kind: byte, present: bool, v: byte): seq<Tlv> {
    if present then [Tlv(kind, [v])] else []
  }

  function Elements(cdma: bool, apn: Option<Text>, user: Option<Text>, password: Option<Text>, auth: int, family: int,
      pdp: int): seq<Tlv> {
    ByteTlv(0x30, true, if cdma then 2 else 1)
    + TextTlv(0x14, apn)
    + TextTlv(0x17, user)
    + TextTlv(0x18, password)
    + ByteTlv(0x16, user.Some? && password.Some?, Truncated(auth))
    + ByteTlv(0x19, true, Truncated(family))
    + ByteTlv(0x31, pdp != 0 && !cdma, Truncated(pdp))
  }

  /** The elements of the request: CDMA has neither an APN nor a profile index. */
  function Tlvs(p: Profile, cdma: bool): seq<Tlv> {
    var (user, password, auth) := Credentials(p, cdma);
    Elements(cdma, if cdma then None else p.apn, user, password, auth, p.family, p.pdp)
  }

  // ---- What the receiver reads back -----------------------------------------------------------------

  function Value(ts: seq<Tlv>, kind: byte): Option<seq<byte>> {
    var k := FirstOf(ts, kind);
    if k.Some? then Some(ts[k.value].value) else None
  }

  lemma {:induction false} ValueConcat(a: seq<Tlv>, b: seq<Tlv>, kind: byte)
    ensures Value(a + b, kind) == if Value(a, kind).Some? then Value(a, kind) else Value(b, kind)
    decreases |b|
  {
    if b == [] {
      assert a + b == a;
    } else {
      assert (a + b)[..|a + b| - 1] == a + b[..|b| - 1];
      ValueConcat(a, b[..|b| - 1], kind);
    }
  }

  lemma ValueOne(kind: byte, v: seq<byte>, asked: byte)
    ensures Value([Tlv(kind, v)], asked) == if kind == asked then Some(v) else None
  {
    assert [Tlv(kind, v)][..0] == [];
  }

  /** Every element is present exactly under its guard, holds what the profile says, and no other is. */
  lemma FieldsPresent(p: Profile, cdma: bool, kind: byte)
    ensures var (user, password, auth) := Credentials(p, cdma);
            Value(Tlvs(p, cdma), kind) ==
            if kind == 0x30 then Some([if cdma then 2 else 1])
            else if kind == 0x14 && !cdma then p.apn
            else if kind == 0x17 then user
            else if kind == 0x18 then password
            else if kind == 0x16 && user.Some? && password.Some? then Some([Truncated(auth)])
            else if kind == 0x19 then Some([Truncated(p.family)])
            else if kind == 0x31 && p.pdp != 0 && !cdma then Some([Truncated(p.pdp)])
            else None
  {
    var (user, password, auth) := Credentials(p, cdma);
    var a := ByteTlv(0x30, true, if cdma then 2 else 1);
    var b := TextTlv(0x14, if cdma then None else p.apn);
    var c := TextTlv(0x17, user);
    var d := TextTlv(0x18, password);
    var e := ByteTlv(0x16, user.Some? && password.Some?, Truncated(auth));
    var f := ByteTlv(0x19, true, Truncated(p.family));
    var g := ByteTlv(0x31, p.pdp != 0 && !cdma, Truncated(p.pdp));
    ValueConcat(a, b, kind);
    ValueConcat(a + b, c, kind);
    ValueConcat(a + b + c, d, kind);
    ValueConcat(a + b + c + d, e, kind);
    ValueConcat(a + b + c + d + e, f, kind);
    ValueConcat(a + b + c + d + e + f, g, kind);
    ValueOne(0x30, [if cdma then 2 else 1], kind);
    ValueOfText(0x14, if cdma then None else p.apn, kind);
    ValueOfText(0x17, user, kind);
    ValueOfText(0x18, password, kind);
    ValueOne(0x16, [Truncated(auth)], kind);
    ValueOne(0x19, [Truncated(p.family)], kind);
    ValueOne(0x31, [Truncated(p.pdp)], kind);
  }

  lemma ValueOfText(kind: byte, t: Option<Text>, asked: byte)
    ensures Value(TextTlv(kind, t), asked) == if kind == asked && t.Some? then t else None
  {
    if t.Some? {
      ValueOne(kind, t.value, asked);
    }
  }

  /** A value that fits a byte is carried as it is; of any other, what is left modulo 256. */
  lemma ByteCarried(n: int)
    ensures 0 <= n < 256 ==> Truncated(n) == n
    ensures exists k :: n == Truncated(n) + 256 * k
  {
    assert n == Truncated(n) + 256 * (n / 256);
  }

  /**
   * What a reader finds in the request, from the profile alone. A CDMA network gets no APN and no
   * profile index, and the operator's own credentials if the profile names neither user nor password.
   */
  lemma RequestSays(p: Profile, cdma: bool)
    requires 0 <= p.auth < 256 && 0 <= p.family < 256 && 0 <= p.pdp < 256
    ensures var ts := Tlvs(p, cdma);
            var own := cdma && (p.user == None || p.user == Some([])) && (p.password == None || p.password == Some([]));
            && Value(ts, 0x30) == Some([if cdma then 2 else 1])
            && Value(ts, 0x14) == (if cdma then None else p.apn)
            && Value(ts, 0x17) == (if own then Some(CdmaUser) else p.user)
            && Value(ts, 0x18) == (if own then Some(CdmaPassword) else p.password)
            && (own ==> Value(ts, 0x16) == Some([2]))
            && (!own && p.user.Some? && p.password.Some? ==> Value(ts, 0x16) == Some([p.auth]))
            && (!own && (p.user.None? || p.password.None?) ==> Value(ts, 0x16) == None)
            && Value(ts, 0x19) == Some([p.family])
            && Value(ts, 0x31) == (if p.pdp != 0 && !cdma then Some([p.pdp]) else None)
  {
    FieldsPresent(p, cdma, 0x30);
    FieldsPresent(p, cdma, 0x14);
    FieldsPresent(p, cdma, 0x17);
    FieldsPresent(p, cdma, 0x18);
    FieldsPresent(p, cdma, 0x16);
    FieldsPresent(p, cdma, 0x19);
    FieldsPresent(p, cdma, 0x31);
    ByteCarried(p.auth);
    ByteCarried(p.family);
    ByteCarried(p.pdp);
  }

  /** The elements, decoded from the composed bytes by a reader that knows nothing of the profile. */
  lemma RequestRoundTrip(p: Profile, cdma: bool, client: byte, tid: nat)
    requires HeaderSize + |Encode(Tlvs(p, cdma))| <= BufferSize
    ensures var m := Message(Wds, client, tid, StartNetworkInterface, Tlvs(p, cdma));
            && Decode(m[HeaderSize..]) == Some(Tlvs(p, cdma))
            && Word(m[11], m[12]) == |m| - HeaderSize && Word(m[1], m[2]) == |m| - 1
            && m[0] == 0x01 && m[4] == Wds && m[5] == client && (tid <= 0xFFFF ==> Word(m[7], m[8]) == tid)
            && Word(m[9], m[10]) == StartNetworkInterface
  {
    var ts := Tlvs(p, cdma);
    MessageCarries(Wds, client, tid, StartNetworkInterface, ts);
    forall t | t in ts ensures Fits(t) {
      var k :| 0 <= k < |ts| && ts[k] == t;
      Tiling(ts, k);
    }
    RoundTrip(ts);
  }

  // ---- Writing it in place ---------------------------------------------------------------------------

  /** `buf` holds the elements `ts` from the payload's beginning up to `pos`. */
  ghost predicate Holds(buf: seq<byte>, pos: nat, ts: seq<Tlv>) {
    HeaderSize <= pos <= |buf| && buf[HeaderSize..pos] == Encode(ts)
  }

  /** The string copy: up to and including the NUL that ends `from`. */
  method CopyText(buf: array<byte>, at: nat, from: seq<byte>)
    requires from != [] && forall j :: 0 <= j < |from| ==> (from[j] == 0 <==> j == |from| - 1)
    requires at + |from| <= buf.Length
    modifies buf
    ensures buf[..] == old(buf[..at]) + from + old(buf[at + |from|..])
  {
    var i := 0;
    buf[at] := from[0];
    while buf[at + i] != 0
      invariant 0 <= i < |from|
      invariant buf[at..at + i + 1] == from[..i + 1]
      invariant buf[..at] == old(buf[..at]) && buf[at + i + 1..] == old(buf[at + i + 1..])
      decreases |from| - i
    {
      assert buf[at + i] == buf[at..at + i + 1][i] == from[i];
      i := i + 1;
      buf[at + i] := from[i];
    }
    assert from[i] == buf[at..at + i + 1][i] == 0;
    assert buf[..] == buf[..at] + buf[at..at + i + 1] + buf[at + i + 1..];
    assert from[..i + 1] == from;
  }

  lemma OneMore(before: seq<byte>, after: seq<byte>, pos: nat, ts: seq<Tlv>, t: Tlv)
    requires Holds(before, pos, ts) && |after| == |before| && pos + 3 + |t.value| <= |after|
    requires after[..pos] == before[..pos] && after[pos..pos + 3 + |t.value|] == EncodeTlv(t)
    ensures Holds(after, pos + 3 + |t.value|, ts + [t])
    ensures pos >= HeaderSize && after[..HeaderSize] == before[..HeaderSize]
  {
    EncodeConcat(ts, [t]);
    EncodeOne(t);
    assert after[HeaderSize..pos] == after[..pos][HeaderSize..] == before[HeaderSize..pos];
    assert after[..HeaderSize] == after[..pos][..HeaderSize];
    assert after[HeaderSize..pos + 3 + |t.value|] == after[HeaderSize..pos] + after[pos..pos + 3 + |t.value|];
  }

  method PutByte(buf: array<byte>, pos: nat, kind: byte, v: byte, ghost ts: seq<Tlv>) returns (next: nat)
    requires Holds(buf[..], pos, ts) && pos + 4 <= buf.Length
    modifies buf
    ensures next == pos + 4 && Holds(buf[..], next, ts + [Tlv(kind, [v])])
    ensures buf[..HeaderSize] == old(buf[..HeaderSize])
  {
    ghost var before := buf[..];
    buf[pos] := kind;
    buf[pos + 1], buf[pos + 2] := 1, 0;
    buf[pos + 3] := v;
    next := pos + 4;
    assert buf[..][pos..pos + 4] == EncodeTlv(Tlv(kind, [v]));
    OneMore(before, buf[..], pos, ts, Tlv(kind, [v]));
  }

  /** The terminating NUL lands on the byte after the element, which must still be inside the buffer. */
  method PutText(buf: array<byte>, pos: nat, kind: byte, s: Text, ghost ts: seq<Tlv>) returns (next: nat)
    requires Holds(buf[..], pos, ts) && pos + 3 + |s| < buf.Length && |s| <= 0xFFFF
    modifies buf
    ensures next == pos + 3 + |s| && Holds(buf[..], next, ts + [Tlv(kind, s)])
    ensures buf[next] == 0 && buf[..HeaderSize] == old(buf[..HeaderSize])
  {
    ghost var before := buf[..];
    buf[pos] := kind;
    buf[pos + 1], buf[pos + 2] := |s| % 256, |s| / 256 % 256;
    ghost var headed := buf[..];
    assert headed[pos..pos + 3] == [kind] + Le16(|s|) && headed[..pos] == before[..pos];
    CopyText(buf, pos + 3, s + [0]);
    next := pos + 3 + |s|;
    TextElement(before, headed, buf[..], pos, kind, s);
    OneMore(before, buf[..], pos, ts, Tlv(kind, s));
  }

  lemma TextElement(before: seq<byte>, headed: seq<byte>, after: seq<byte>, pos: nat, kind: byte, s: Text)
    requires pos + 3 + |s| < |before| == |headed| && headed[..pos] == before[..pos]
    requires headed[pos..pos + 3] == [kind] + Le16(|s|)
    requires after == headed[..pos + 3] + (s + [0]) + headed[pos + 3 + |s| + 1..]
    ensures |after| == |before| && after[..pos] == before[..pos] && after[pos + 3 + |s|] == 0
    ensures after[pos..pos + 3 + |s|] == EncodeTlv(Tlv(kind, s))
  {
    assert after[..pos] == headed[..pos];
    assert after[pos..pos + 3 + |s|] == headed[pos..pos + 3] + s;
  }

  method PutOptionalByte(buf: array<byte>, pos: nat, kind: byte, present: bool, v: byte, ghost ts: seq<Tlv>)
      returns (next: nat)
    requires Holds(buf[..], pos, ts) && (present ==> pos + 4 <= buf.Length)
    modifies buf
    ensures next == (if present then pos + 4 else pos) && Holds(buf[..], next, ts + ByteTlv(kind, present, v))
    ensures buf[..HeaderSize] == old(buf[..HeaderSize])
  {
    next := pos;
    if present {
      next := PutByte(buf, pos, kind, v, ts);
    } else {
      assert ts + [] == ts;
    }
  }

  method PutOptionalText(buf: array<byte>, pos: nat, kind: byte, t: Option<Text>, ghost ts: seq<Tlv>)
      returns (next: nat)
    requires Holds(buf[..], pos, ts) && (t.Some? ==> pos + 3 + |t.value| < buf.Length && |t.value| <= 0xFFFF)
    modifies buf
    ensures next == (if t.Some? then pos + 3 + |t.value| else pos) && Holds(buf[..], next, ts + TextTlv(kind, t))
    ensures buf[..HeaderSize] == old(buf[..HeaderSize])
  {
    next := pos;
    if t.Some? {
      next := PutText(buf, pos, kind, t.value, ts);
    } else {
      assert ts + [] == ts;
    }
  }

  lemma RequestSize(p: Profile, cdma: bool)
    ensures var (user, password, auth) := Credentials(p, cdma);
            |Encode(Tlvs(p, cdma))| == 8
              + SizeOfText(if cdma then None else p.apn) + SizeOfText(user) + SizeOfText(password)
              + (if user.Some? && password.Some? then 4 else 0)
              + (if p.pdp != 0 && !cdma then 4 else 0)
  {
    var (user, password, auth) := Credentials(p, cdma);
    var a := ByteTlv(0x30, true, if cdma then 2 else 1);
    var b := TextTlv(0x14, if cdma then None else p.apn);
    var c := TextTlv(0x17, user);
    var d := TextTlv(0x18, password);
    var e := ByteTlv(0x16, user.Some? && password.Some?, Truncated(auth));
    var f := ByteTlv(0x19, true, Truncated(p.family));
    var g := ByteTlv(0x31, p.pdp != 0 && !cdma, Truncated(p.pdp));
    SizeOfSeven(a, b, c, d, e, f, g);
    ByteTlvSize(0x30, true, if cdma then 2 else 1);
    TextTlvSize(0x14, if cdma then None else p.apn);
    TextTlvSize(0x17, user);
    TextTlvSize(0x18, password);
    ByteTlvSize(0x16, user.Some? && password.Some?, Truncated(auth));
    ByteTlvSize(0x19, true, Truncated(p.family));
    ByteTlvSize(0x31, p.pdp != 0 && !cdma, Truncated(p.pdp));
  }

  function SizeOfText(t: Option<Text>): nat {
    if t.Some? then 3 + |t.value| else 0
  }

  lemma TextTlvSize(kind: byte, t: Option<Text>)
    ensures |Encode(TextTlv(kind, t))| == SizeOfText(t)
  {
    if t.Some? { EncodeOne(Tlv(kind, t.value)); }
  }

  lemma ByteTlvSize(kind: byte, present: bool, v: byte)
    ensures |Encode(ByteTlv(kind, present, v))| == if present then 4 else 0
  {
    EncodeOne(Tlv(kind, [v]));
  }

  lemma SizeOfSeven(a: seq<Tlv>, b: seq<Tlv>, c: seq<Tlv>, d: seq<Tlv>, e: seq<Tlv>, f: seq<Tlv>, g: seq<Tlv>)
    ensures |Encode(a + b + c + d + e + f + g)|
         == |Encode(a)| + |Encode(b)| + |Encode(c)| + |Encode(d)| + |Encode(e)| + |Encode(f)| + |Encode(g)|
  {
    SizeConcat(a, b);
    SizeConcat(a + b, c);
    SizeConcat(a + b + c, d);
    SizeConcat(a + b + c + d, e);
    SizeConcat(a + b + c + d + e, f);
    SizeConcat(a + b + c + d + e + f, g);
  }

  lemma {:induction false} SizeConcat(a: seq<Tlv>, b: seq<Tlv>)
    ensures |Encode(a + b)| == |Encode(a)| + |Encode(b)|
  {
    EncodeConcat(a, b);
  }

  method PutTexts(buf: array<byte>, pos: nat, apn: Option<Text>, user: Option<Text>, password: Option<Text>,
      ghost ts: seq<Tlv>)
      returns (next: nat)
    requires Holds(buf[..], pos, ts) && buf.Length == BufferSize
    requires pos + SizeOfText(apn) + SizeOfText(user) + SizeOfText(password) < BufferSize
    modifies buf
    ensures next == pos + SizeOfText(apn) + SizeOfText(user) + SizeOfText(password)
    ensures Holds(buf[..], next, ts + TextTlv(0x14, apn) + TextTlv(0x17, user) + TextTlv(0x18, password))
    ensures buf[..HeaderSize] == old(buf[..HeaderSize])
  {
    next := PutOptionalText(buf, pos, 0x14, apn, ts);
    next := PutOptionalText(buf, next, 0x17, user, ts + TextTlv(0x14, apn));
    next := PutOptionalText(buf, next, 0x18, password, ts + TextTlv(0x14, apn) + TextTlv(0x17, user));
  }

  method PutBytes(buf: array<byte>, pos: nat, both: bool, auth: byte, family: byte, chosen: bool, profile: byte,
      ghost ts: seq<Tlv>)
      returns (next: nat)
    requires Holds(buf[..], pos, ts) && buf.Length == BufferSize
    requires pos + (if both then 4 else 0) + 4 + (if chosen then 4 else 0) <= BufferSize
    modifies buf
    ensures next == pos + (if both then 4 else 0) + 4 + (if chosen then 4 else 0)
    ensures Holds(buf[..], next, ts + ByteTlv(0x16, both, auth) + ByteTlv(0x19, true, family)
            + ByteTlv(0x31, chosen, profile))
    ensures buf[..HeaderSize] == old(buf[..HeaderSize])
  {
    next := PutOptionalByte(buf, pos, 0x16, both, auth, ts);
    next := PutOptionalByte(buf, next, 0x19, true, family, ts + ByteTlv(0x16, both, auth));
    next := PutOptionalByte(buf, next, 0x31, chosen, profile, ts + ByteTlv(0x16, both, auth)
        + ByteTlv(0x19, true, family));
  }

  /** Writes the elements one after another; returns the size of message header and payload. */
  method WdsStartNwInterfaceReq(buf: array<byte>, p: Profile, cdma: bool) returns (size: nat)
    requires buf.Length == BufferSize && HeaderSize + |Encode(Tlvs(p, cdma))| <= BufferSize
    modifies buf
    ensures size == 4 + |Encode(Tlvs(p, cdma))|
    ensures Holds(buf[..], HeaderSize + |Encode(Tlvs(p, cdma))|, Tlvs(p, cdma))
    ensures buf[..HeaderSize] == old(buf[..HeaderSize])
  {
    RequestSize(p, cdma);
    var user, password, auth := p.user, p.password, p.auth;
    if cdma && Blank(user) && Blank(password) {
      user, password, auth := Some(CdmaUser), Some(CdmaPassword), 2;
    }
    var next := WriteElements(buf, cdma, if cdma then None else p.apn, user, password, auth, p.family, p.pdp);
    size := next - HeaderSize + 4;
  }

  method WriteElements(buf: array<byte>, cdma: bool, apn: Option<Text>, user: Option<Text>, password: Option<Text>,
                       auth: int, family: int, pdp: int) returns (next: nat)
    requires buf.Length == BufferSize
    requires HeaderSize + 4 + SizeOfText(apn) + SizeOfText(user) + SizeOfText(password)
               + (if user.Some? && password.Some? then 4 else 0) + 4
                   + (if pdp != 0 && !cdma then 4 else 0) <= BufferSize
    modifies buf
    ensures Holds(buf[..], next, Elements(cdma, apn, user, password, auth, family, pdp))
    ensures buf[..HeaderSize] == old(buf[..HeaderSize])
  {
    ghost var ts := ByteTlv(0x30, true, if cdma then 2 else 1);
    assert [] + ts == ts;
    next := PutByte(buf, HeaderSize, 0x30, if cdma then 2 else 1, []);
    next := PutTexts(buf, next, apn, user, password, ts);
    ts := ts + TextTlv(0x14, apn) + TextTlv(0x17, user) + TextTlv(0x18, password);
    next := PutBytes(buf, next, user.Some? && password.Some?, Truncated(auth), Truncated(family), pdp != 0 &&
        !cdma, Truncated(pdp), ts);
  }

  /** What a message header says but for its two length fields. */
  datatype Names = Names(service: byte, client: byte, tid: nat, kind: nat)

  ghost predicate Named(head: seq<byte>, n: Names) {
    && |head| >= HeaderSize
    && head[0] == 0x01 && head[3] == 0x00 && head[4] == n.service && head[5] == n.client && head[6] == 0x00
    && [head[7], head[8]] == Le16(n.tid) && [head[9], head[10]] == Le16(n.kind)
  }

  method WriteNames(buf: array<byte>, n: Names)
    requires buf.Length == BufferSize
    modifies buf
    ensures Named(buf[..], n)
  {
    buf[0] := 0x01;
    buf[3] := 0x00;
    buf[4] := n.service;
    buf[5] := n.client;
    buf[6] := 0x00;
    buf[7], buf[8] := n.tid % 256, n.tid / 256 % 256;
    buf[9], buf[10] := n.kind % 256, n.kind / 256 % 256;
  }

  method WriteLengths(buf: array<byte>, ghost n: Names, payload: nat)
    requires buf.Length == BufferSize && Named(buf[..], n)
    modifies buf
    ensures buf[..HeaderSize] == Header(n.service, n.client, n.tid, n.kind, payload)
    ensures buf[HeaderSize..] == old(buf[HeaderSize..])
  {
    ghost var before := buf[..];
    buf[11], buf[12] := payload % 256, payload / 256 % 256;
    buf[1], buf[2] := (payload + 12) % 256, (payload + 12) / 256 % 256;
    ghost var head := buf[..HeaderSize];
    assert [head[1], head[2]] == Le16(payload + 12) && [head[11], head[12]] == Le16(payload);
    assert forall k :: 0 <= k < HeaderSize && k != 1 && k != 2 && k != 11 && k != 12 ==> head[k] == before[k];
    HeaderComplete(head, n, payload);
  }

  method FinishMessage(buf: array<byte>, ghost n: Names, payload: nat, ghost ts: seq<Tlv>) returns (m: array<byte>)
    requires buf.Length == BufferSize && HeaderSize + payload <= BufferSize && payload == |Encode(ts)|
    requires Named(buf[..], n) && Holds(buf[..], HeaderSize + payload, ts)
    modifies buf
    ensures fresh(m) && m[..] == Message(n.service, n.client, n.tid, n.kind, ts)
  {
    ghost var before := buf[HeaderSize..];
    assert before[..payload] == buf[HeaderSize..HeaderSize + payload];
    WriteLengths(buf, n, payload);
    m := CopyOut(buf, payload + HeaderSize);
    assert buf[HeaderSize..HeaderSize + payload] == buf[HeaderSize..][..payload];
    assert buf[..HeaderSize + payload] == buf[..HeaderSize] + buf[HeaderSize..HeaderSize + payload];
  }

  method CopyOut(buf: array<byte>, length: nat) returns (m: array<byte>)
    requires length <= buf.Length
    ensures fresh(m) && m[..] == buf[..length]
  {
    m := new byte[length];
    for i := 0 to length
      invariant m[..i] == buf[..i]
    {
      m[i] := buf[i];
    }
    assert m[..] == m[..length];
  }

  lemma HeaderComplete(head: seq<byte>, n: Names, payload: nat)
    requires Named(head, n) && |head| == HeaderSize
    requires [head[1], head[2]] == Le16(payload + 12) && [head[11], head[12]] == Le16(payload)
    ensures head == Header(n.service, n.client, n.tid, n.kind, payload)
  {
    assert head == [head[0]] + [head[1], head[2]] + [head[3], head[4], head[5]] + [head[6]]
                   + [head[7], head[8]] + [head[9], head[10]] + [head[11], head[12]];
  }

  /** The builder a message is composed with: none, or the one that starts a data call. */
  datatype Builder = NoPayload | StartCall(p: Profile, cdma: bool)

  function PayloadOf(b: Builder): seq<Tlv> {
    match b
    case NoPayload => []
    case StartCall(p, cdma) => Tlvs(p, cdma)
  }

  /**
   * Fills in the headers around what the builder writes, which is nothing if there is none, and copies
   * out exactly the bytes the length field covers.
   */
  method ComposeQmuxMsg(service: byte, kind: nat, clientId: nat, tid: nat, b: Builder)
      returns (request: Option<array<byte>>)
    requires tid <= 0xFFFF && kind <= 0xFFFF && HeaderSize + |Encode(PayloadOf(b))| <= BufferSize
    ensures request.None? <==> clientId == 0
    ensures request.Some? ==> fresh(request.value)
    ensures request.Some? ==> request.value[..] == Message(service, clientId % 256, tid, kind, PayloadOf(b))
  {
    var buf := new byte[BufferSize](_ => 0);
    var n := Names(service, clientId % 256, tid, kind);
    WriteNames(buf, n);
    ghost var named := buf[..];
    if clientId == 0 {
      return None;
    }
    var payload := 0;
    if b.StartCall? {
      var size := WdsStartNwInterfaceReq(buf, b.p, b.cdma);
      payload := size - 4;
      assert Named(buf[..], n) by {
        assert forall k :: 0 <= k < HeaderSize ==>
          buf[..][k] == buf[..HeaderSize][k] == named[..HeaderSize][k] == named[k];
      }
    }
    var m := FinishMessage(buf, n, payload, PayloadOf(b));
    request := Some(m);
  }
}
