/** The bytes of a QMI service message: headers, and a payload tiled by type-length-value elements. */
module QmiTlv {
  import opened Wrappers
  import opened Bytes

  datatype Tlv = Tlv(kind: byte, value: seq<byte>)

  ghost predicate Fits(t: Tlv) { |t.value| <= 0xFFFF }

  function Word(low: int, high: int): int {
    low + 256 * high
  }

  /** The low and high byte of a 16-bit field. */
  function Le16(n: nat): (b: seq<byte>)
    ensures |b| == 2
    ensures n <= 0xFFFF ==> Word(b[0], b[1]) == n
  {
    [n % 256, n / 256 % 256]
  }

  lemma Le16OfWord(low: byte, high: byte)
    ensures Word(low, high) >= 0 && Le16(Word(low, high)) == [low, high]
  {
    var l: int, h: int := low, high;
    assert (l + 256 * h) / 256 == h;
  }

  function EncodeTlv(t: Tlv): (b: seq<byte>)
    ensures |b| == 3 + |t.value|
  {
    [t.kind] + Le16(|t.value|) + t.value
  }

  function Encode(ts: seq<Tlv>): seq<byte> {
    if ts == [] then [] else Encode(ts[..|ts| - 1]) + EncodeTlv(ts[|ts| - 1])
  }

  lemma {:induction false} EncodeConcat(a: seq<Tlv>, b: seq<Tlv>)
    ensures Encode(a + b) == Encode(a) + Encode(b)
    decreases |b|
  {
    if b == [] {
      assert a + b == a;
    } else {
      var front, last := b[..|b| - 1], b[|b| - 1];
      EncodeConcat(a, front);
      assert (a + b)[..|a + b| - 1] == a + front && (a + b)[|a + b| - 1] == last;
      Associative(Encode(a), Encode(front), EncodeTlv(last));
    }
  }

  lemma Associative(a: seq<byte>, b: seq<byte>, c: seq<byte>)
    ensures (a + b) + c == a + (b + c)
  {
  }

  lemma EncodeOne(t: Tlv)
    ensures Encode([t]) == EncodeTlv(t)
  {
    assert [t][..0] == [];
  }

  /** Where element `k` begins in the payload. */
  function Start(ts: seq<Tlv>, k: nat): nat
    requires k <= |ts|
  {
    |Encode(ts[..k])|
  }

  /** The elements tile the payload: each one's bytes run from its start to the next one's. */
  lemma {:induction false} Tiling(ts: seq<Tlv>, k: nat)
    requires k < |ts|
    ensures Start(ts, k + 1) == Start(ts, k) + 3 + |ts[k].value| <= |Encode(ts)|
    ensures Encode(ts)[Start(ts, k)..Start(ts, k + 1)] == EncodeTlv(ts[k])
  {
    assert ts[..k + 1][..k] == ts[..k];
    assert ts == ts[..k + 1] + ts[k + 1..];
    EncodeConcat(ts[..k + 1], ts[k + 1..]);
  }

  /** An element byte by byte: its type, the low and high byte of its length, and its value. */
  lemma TlvBytes(t: Tlv)
    requires Fits(t)
    ensures var b := EncodeTlv(t);
            |b| == 3 + |t.value| && b[0] == t.kind && b[1] as int + 256 * b[2] as int == |t.value| && b[3..] == t.value
  {
  }

  // ---- Reading a payload back, without knowing how it was made ------------------------------------

  function Decode(b: seq<byte>): Option<seq<Tlv>>
    decreases |b|
  {
    if b == [] then Some([])
    else if |b| < 3 || |b| < 3 + Word(b[1], b[2]) then None
    else
      var n := Word(b[1], b[2]);
      match Decode(b[3 + n..])
      case None => None
      case Some(rest) => Some([Tlv(b[0], b[3..3 + n])] + rest)
  }

  lemma {:induction false} RoundTrip(ts: seq<Tlv>)
    requires forall t :: t in ts ==> Fits(t)
    ensures Decode(Encode(ts)) == Some(ts)
    decreases |ts|
  {
    if ts != [] {
      var b := Encode(ts);
      assert ts == [ts[0]] + ts[1..];
      EncodeConcat([ts[0]], ts[1..]);
      EncodeOne(ts[0]);
      assert b == EncodeTlv(ts[0]) + Encode(ts[1..]);
      assert Fits(ts[0]);
      var n := |ts[0].value|;
      assert Word(b[1], b[2]) == n && b[3..3 + n] == ts[0].value && b[3 + n..] == Encode(ts[1..]);
      RoundTrip(ts[1..]);
    }
  }

  lemma HeadOfPayload(b: seq<byte>)
    requires |b| >= 3 && |b| >= 3 + Word(b[1], b[2])
    ensures EncodeTlv(Tlv(b[0], b[3..3 + Word(b[1], b[2])])) + b[3 + Word(b[1], b[2])..] == b
  {
    var n := Word(b[1], b[2]);
    Le16OfWord(b[1], b[2]);
    assert b == [b[0]] + [b[1], b[2]] + b[3..3 + n] + b[3 + n..];
  }

  lemma {:induction false} DecodedIsEncoding(b: seq<byte>)
    requires Decode(b).Some?
    ensures Encode(Decode(b).value) == b
    decreases |b|
  {
    if b != [] {
      var n := Word(b[1], b[2]);
      var t, rest := Tlv(b[0], b[3..3 + n]), Decode(b[3 + n..]).value;
      DecodedIsEncoding(b[3 + n..]);
      EncodeConcat([t], rest);
      EncodeOne(t);
      HeadOfPayload(b);
    }
  }

  // ---- Whole messages ----------------------------------------------------------------------------

  const HeaderSize: nat := 13   // 6 of QMI, 3 of QMUX, 4 of the message

  function Header(service: byte, client: byte, tid: nat, kind: nat, payload: nat): (b: seq<byte>)
    ensures |b| == HeaderSize
  {
    [0x01] + Le16(payload + 12) + [0x00, service, client] + [0x00] + Le16(tid) + Le16(kind) + Le16(payload)
  }

  function Message(service: byte, client: byte, tid: nat, kind: nat, ts: seq<Tlv>): seq<byte> {
    Header(service, client, tid, kind, |Encode(ts)|) + Encode(ts)
  }

  /** A received message whose nested length field and payload are consistent. */
  ghost predicate Carries(m: seq<byte>, ts: seq<Tlv>) {
    && |m| == HeaderSize + |Encode(ts)| && |Encode(ts)| <= 0xFFFF
    && Word(m[11], m[12]) == |Encode(ts)| && m[HeaderSize..] == Encode(ts)
  }

  lemma MessageCarries(service: byte, client: byte, tid: nat, kind: nat, ts: seq<Tlv>)
    requires |Encode(ts)| <= 0xFFFF - 12
    ensures var m := Message(service, client, tid, kind, ts);
            && Carries(m, ts)
            && Word(m[1], m[2]) == |m| - 1
  {
  }

  /** The first element of a type, or the element of a number counted from 0x1001. */
  function Find(ts: seq<Tlv>, what: int): (found: Option<nat>)
    ensures found.Some? ==> found.value < |ts|
  {
    if what > 0x1000 then (if what - 0x1001 < |ts| then Some(what - 0x1001) else None)
    else FirstOf(ts, what)
  }

  function FirstOf(ts: seq<Tlv>, what: int): (found: Option<nat>)
    ensures found.Some? ==> found.value < |ts|
  {
    if ts == [] then None
    else
      var earlier := FirstOf(ts[..|ts| - 1], what);
      if earlier.Some? then earlier else if ts[|ts| - 1].kind == what then Some(|ts| - 1) else None
  }

  lemma {:induction false} FirstOfMeaning(ts: seq<Tlv>, what: int)
    ensures match FirstOf(ts, what)
            case Some(k) => k < |ts| && ts[k].kind == what && forall j :: 0 <= j < k ==> ts[j].kind != what
            case None => forall j :: 0 <= j < |ts| ==> ts[j].kind != what
  {
    if ts != [] {
      FirstOfMeaning(ts[..|ts| - 1], what);
    }
  }

  /** One step of a walk: the three header bytes at element `k`, and where the next one begins. */
  lemma At(m: seq<byte>, ts: seq<Tlv>, k: nat)
    requires Carries(m, ts) && k < |ts|
    ensures var pos := HeaderSize + Start(ts, k);
            && pos + 3 + |ts[k].value| <= |m|
            && m[pos] == ts[k].kind && Word(m[pos + 1], m[pos + 2]) == |ts[k].value|
            && m[pos + 3..pos + 3 + |ts[k].value|] == ts[k].value
            && HeaderSize + Start(ts, k + 1) == pos + 3 + |ts[k].value|
  {
    Tiling(ts, k);
    InPayload(m, Encode(ts), Start(ts, k), Start(ts, k + 1));
    ElementAt(m, HeaderSize + Start(ts, k), ts[k]);
  }

  lemma InPayload(m: seq<byte>, payload: seq<byte>, from: nat, to: nat)
    requires |m| >= HeaderSize && m[HeaderSize..] == payload && from <= to <= |payload|
    ensures m[HeaderSize + from..HeaderSize + to] == payload[from..to]
  {
    var here, there := m[HeaderSize + from..HeaderSize + to], payload[from..to];
    forall i | 0 <= i < to - from ensures here[i] == there[i] {
      assert there[i] == payload[from + i] == m[HeaderSize..][from + i] == m[HeaderSize + from + i] == here[i];
    }
  }

  lemma ElementAt(m: seq<byte>, at: nat, t: Tlv)
    requires Fits(t) && at + 3 + |t.value| <= |m| && m[at..at + 3 + |t.value|] == EncodeTlv(t)
    ensures m[at] == t.kind && Word(m[at + 1], m[at + 2]) == |t.value| && m[at + 3..at + 3 + |t.value|] == t.value
  {
    var e := m[at..at + 3 + |t.value|];
    TlvBytes(t);
    assert m[at] == e[0] && m[at + 1] == e[1] && m[at + 2] == e[2];
    assert m[at + 3..at + 3 + |t.value|] == e[3..];
  }

  lemma StartOfAll(ts: seq<Tlv>, k: nat)
    requires k <= |ts|
    ensures k == |ts| <==> Start(ts, k) == |Encode(ts)|
    ensures k < |ts| ==> Start(ts, k) + 3 <= |Encode(ts)|
  {
    if k < |ts| {
      Tiling(ts, k);
    } else {
      assert ts[..k] == ts;
    }
  }

  /** Walks the payload, counting down what the message header says it holds. */
  method GetTlv(m: array<byte>, what: int, ghost ts: seq<Tlv>) returns (found: Option<nat>)
    requires Carries(m[..], ts)
    ensures match Find(ts, what)
            case Some(k) => found == Some(HeaderSize + Start(ts, k))
            case None => found == None
  {
    var number: nat := 0;
    var length: int := Word(m[11], m[12]);
    var pos := HeaderSize;
    ghost var k: nat := 0;
    StartOfAll(ts, 0);
    while length >= 3
      invariant k <= |ts| && number == k && pos == HeaderSize + Start(ts, k) && length == |Encode(ts)| - Start(ts, k)
      invariant what > 0x1000 ==> k < what - 0x1000
      invariant what <= 0x1000 ==> forall j :: 0 <= j < k ==> ts[j].kind != what
      decreases length
    {
      StartOfAll(ts, k);
      At(m[..], ts, k);
      FirstOfMeaning(ts, what);
      number := number + 1;
      if what > 0x1000 {
        if number + 0x1000 == what {
          return Some(pos);
        }
      } else if m[pos] == what {
        return Some(pos);
      }
      length := length - (Word(m[pos + 1], m[pos + 2]) + 3);
      pos := pos + Word(m[pos + 1], m[pos + 2]) + 3;
      k := k + 1;
    }
    StartOfAll(ts, k);
    FirstOfMeaning(ts, what);
    found := None;
  }

  /** The proxy's walk, counting up. */
  method FindTlv(m: array<byte>, what: byte, ghost ts: seq<Tlv>) returns (found: Option<nat>)
    requires Carries(m[..], ts)
    ensures match FirstOf(ts, what)
            case Some(k) => found == Some(HeaderSize + Start(ts, k))
            case None => found == None
  {
    var length: nat := 0;
    ghost var k: nat := 0;
    while length < Word(m[11], m[12])
      invariant k <= |ts| && length == Start(ts, k)
      invariant forall j :: 0 <= j < k ==> ts[j].kind != what
      decreases |Encode(ts)| - length
    {
      StartOfAll(ts, k);
      At(m[..], ts, k);
      FirstOfMeaning(ts, what);
      if m[HeaderSize + length] == what {
        return Some(HeaderSize + length);
      }
      length := length + Word(m[HeaderSize + length + 1], m[HeaderSize + length + 2]) + 3;
      k := k + 1;
    }
    StartOfAll(ts, k);
    FirstOfMeaning(ts, what);
    found := None;
  }
}
