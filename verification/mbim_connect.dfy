/** The MBIM connect request: three strings laid out behind a fixed part that says where each one is. */
module MbimConnect {
  import opened Wrappers
  import opened Bytes

  const FixedSize: nat := 60       // eleven 32-bit words and a 16-byte context type
  const AccessString: nat := 8     // each string's offset word is followed by its size word
  const UserName: nat := 16
  const Password: nat := 24
  const ReaderLimit: nat := 255    // the reader's buffer, without its NUL

  /** A string that is absent is laid out like an empty one. */
  function Characters(t: Option<Text>): Text {
    if t.Some? then t.value else []
  }

  function Word32(b: seq<byte>, at: nat): nat
    requires at + 4 <= |b|
  {
    var b0: int, b1: int, b2: int, b3: int := b[at], b[at + 1], b[at + 2], b[at + 3];
    b0 + 0x100 * b1 + 0x1_0000 * b2 + 0x100_0000 * b3
  }

  lemma BytesOfWord(n: nat)
    requires n < 0x1_0000_0000
    ensures n == n % 0x100 + 0x100 * (n / 0x100 % 0x100) + 0x1_0000 * (n / 0x1_0000 % 0x100)
            + 0x100_0000 * (n / 0x100_0000)
    ensures n / 0x100_0000 < 0x100
  {
    var q1 := n / 0x100;
    var q2 := q1 / 0x100;
    assert q2 == n / 0x1_0000;
    assert q2 / 0x100 == n / 0x100_0000;
  }

  /** String `s` stands at `at` as 16-bit characters, and the words at `field` say so. */
  ghost predicate Placed(b: seq<byte>, field: nat, at: nat, s: Text) {
    && field + 8 <= |b| && at + 2 * |s| <= |b|
    && Word32(b, field) == (if s == [] then 0 else at)
    && Word32(b, field + 4) == 2 * |s|
    && Spelled(b, at, s)
  }

  /** Each character of `s`, followed by a zero byte. */
  predicate Spelled(b: seq<byte>, at: nat, s: Text)
    requires at + 2 * |s| <= |b|
  {
    s == [] ||
    var n := |s| - 1;
    Spelled(b, at, s[..n]) && b[at + 2 * n] == s[n] && b[at + 2 * n + 1] == 0
  }

  lemma {:induction false} SpelledAt(b: seq<byte>, at: nat, s: Text, i: nat)
    requires at + 2 * |s| <= |b| && Spelled(b, at, s) && i < |s|
    ensures b[at + 2 * i] == s[i] && b[at + 2 * i + 1] == 0
  {
    if i < |s| - 1 {
      SpelledAt(b, at, s[..|s| - 1], i);
    }
  }

  lemma {:induction false} SpelledUnchanged(before: seq<byte>, after: seq<byte>, at: nat, s: Text)
    requires at + 2 * |s| <= |before| == |after| && Spelled(before, at, s)
    requires forall i :: at <= i < at + 2 * |s| ==> after[i] == before[i]
    ensures Spelled(after, at, s)
  {
    if s != [] {
      SpelledUnchanged(before, after, at, s[..|s| - 1]);
    }
  }

  function DataSize(apn: Text, user: Text, password: Text): nat {
    2 * |apn| + 2 * |user| + 2 * |password|
  }

  /** One after another, without padding, filling the buffer to its end. */
  ghost predicate LaidOut(b: seq<byte>, apn: Text, user: Text, password: Text) {
    && |b| == FixedSize + DataSize(apn, user, password)
    && Placed(b, AccessString, FixedSize, apn)
    && Placed(b, UserName, FixedSize + 2 * |apn|, user)
    && Placed(b, Password, FixedSize + 2 * |apn| + 2 * |user|, password)
  }

  /** What the reader makes of a string's two words: every other byte. */
  function Segment(b: seq<byte>, offset: nat, size: nat): (s: seq<byte>)
    requires offset + size <= |b|
    ensures |s| == size / 2 && forall i :: 0 <= i < size / 2 ==> s[i] == b[offset + i * 2]
  {
    seq(size / 2, i requires 0 <= i < size / 2 => b[offset + i * 2])
  }

  lemma PlacedReadsBack(b: seq<byte>, field: nat, at: nat, s: Text)
    requires Placed(b, field, at, s)
    ensures Word32(b, field) + Word32(b, field + 4) <= |b|
    ensures Segment(b, Word32(b, field), Word32(b, field + 4)) == s
  {
    var r := Segment(b, Word32(b, field), Word32(b, field + 4));
    forall i | 0 <= i < |s| ensures r[i] == s[i] {
      SpelledAt(b, at, s, i);
    }
  }

  /**
   * Round trip. For all strings: the segments are in order, disjoint, behind the fixed part and inside
   * the buffer, their sizes add up to the data size, and the reader gets every string back.
   */
  lemma {:induction false} LayoutRoundTrip(b: seq<byte>, apn: Text, user: Text, password: Text)
    requires LaidOut(b, apn, user, password)
    ensures Word32(b, AccessString + 4) + Word32(b, UserName + 4) + Word32(b, Password + 4) == |b| - FixedSize
    ensures apn != [] ==> FixedSize <= Word32(b, AccessString)
    ensures apn != [] && user != [] ==> Word32(b, AccessString) + Word32(b, AccessString + 4) <= Word32(b, UserName)
    ensures apn != [] && password != [] ==> Word32(b, AccessString) + Word32(b, AccessString + 4) <= Word32(b, Password)
    ensures user != [] ==> FixedSize <= Word32(b, UserName)
    ensures user != [] && password != [] ==> Word32(b, UserName) + Word32(b, UserName + 4) <= Word32(b, Password)
    ensures password != [] ==> FixedSize <= Word32(b, Password)
    ensures Word32(b, AccessString) + Word32(b, AccessString + 4) <= |b| &&
            Segment(b, Word32(b, AccessString), Word32(b, AccessString + 4)) == apn
    ensures Word32(b, UserName) + Word32(b, UserName + 4) <= |b| &&
            Segment(b, Word32(b, UserName), Word32(b, UserName + 4)) == user
    ensures Word32(b, Password) + Word32(b, Password + 4) <= |b| &&
            Segment(b, Word32(b, Password), Word32(b, Password + 4)) == password
  {
    PlacedReadsBack(b, AccessString, FixedSize, apn);
    PlacedReadsBack(b, UserName, FixedSize + 2 * |apn|, user);
    PlacedReadsBack(b, Password, FixedSize + 2 * |apn| + 2 * |user|, password);
  }

  /**
   * MBIM wants every string at a multiple of four bytes; the code does not pad, so the user name is
   * aligned exactly when the access string has an even length, and the password exactly when the two
   * together have.
   */
  lemma {:induction false} AlignedIff(b: seq<byte>, apn: Text, user: Text, password: Text)
    requires LaidOut(b, apn, user, password)
    ensures user != [] ==> (Word32(b, UserName) % 4 == 0 <==> |apn| % 2 == 0)
    ensures password != [] ==> (Word32(b, Password) % 4 == 0 <==> (|apn| + |user|) % 2 == 0)
  {
    FourDividesTwice(|apn|);
    FourDividesTwice(|apn| + |user|);
  }

  lemma FourDividesTwice(n: nat)
    ensures (FixedSize + 2 * n) % 4 == 0 <==> n % 2 == 0
  {
  }

  // ---- Writing and reading in place -----------------------------------------------------------------

  method PutWord32(buf: array<byte>, at: nat, n: nat)
    requires at + 4 <= buf.Length && n < 0x1_0000_0000
    modifies buf
    ensures Word32(buf[..], at) == n
    ensures forall i :: 0 <= i < buf.Length && !(at <= i < at + 4) ==> buf[i] == old(buf[i])
  {
    BytesOfWord(n);
    buf[at] := n % 0x100;
    buf[at + 1] := n / 0x100 % 0x100;
    buf[at + 2] := n / 0x1_0000 % 0x100;
    buf[at + 3] := n / 0x100_0000;
  }

  /** Nothing changed but the words at `field` and the `n` bytes at `at`. */
  ghost predicate SameOutside(before: seq<byte>, after: seq<byte>, field: nat, at: nat, n: nat) {
    && |after| == |before|
    && forall i :: 0 <= i < |before| && !(field <= i < field + 8) && !(at <= i < at + n) ==> after[i] == before[i]
  }

  lemma KeepsBlank(before: seq<byte>, after: seq<byte>, field: nat, at: nat, n: nat, other: nat)
    requires SameOutside(before, after, field, at, n) && other + 8 <= FixedSize <= at && FixedSize <= |before|
    requires other + 8 <= field || field + 8 <= other
    requires Word32(before, other) == 0 && Word32(before, other + 4) == 0
    ensures Word32(after, other) == 0 && Word32(after, other + 4) == 0
  {
    WordUnchanged(before, after, other);
    WordUnchanged(before, after, other + 4);
  }

  lemma KeepsPlaced(before: seq<byte>, after: seq<byte>, field: nat, at: nat, n: nat, other: nat, there: nat, s: Text)
    requires SameOutside(before, after, field, at, n) && Placed(before, other, there, s)
    requires other + 8 <= FixedSize && field + 8 <= FixedSize && (other + 8 <= field || field + 8 <= other)
    requires FixedSize <= there && there + 2 * |s| <= at
    ensures Placed(after, other, there, s)
  {
    PlacedUnchanged(before, after, other, there, s);
  }

  lemma ZerosAreBlank(b: seq<byte>, field: nat)
    requires field + 8 <= |b| && forall i :: 0 <= i < |b| ==> b[i] == 0
    ensures Word32(b, field) == 0 && Word32(b, field + 4) == 0
  {
  }

  /** Places a string unless it is empty; the words of an empty one stay as they are. */
  method PlaceString(buf: array<byte>, field: nat, at: nat, s: Text)
    requires field + 8 <= FixedSize <= at && at + 2 * |s| <= buf.Length < 0x1_0000_0000
    requires Word32(buf[..], field) == 0 && Word32(buf[..], field + 4) == 0
    modifies buf
    ensures Placed(buf[..], field, at, s)
    ensures SameOutside(old(buf[..]), buf[..], field, at, 2 * |s|)
  {
    if |s| > 0 {
      PutWord32(buf, field + 4, 2 * |s|);
      ghost var sized := buf[..];
      PutWord32(buf, field, at);
      WordUnchanged(sized, buf[..], field + 4);
      ghost var words := buf[..];
      for i := 0 to |s|
        invariant Spelled(buf[..], at, s[..i])
        invariant forall j :: 0 <= j < buf.Length && !(at <= j < at + 2 * i) ==> buf[j] == words[j]
      {
        ghost var before := buf[..];
        buf[at + 2 * i] := s[i];
        buf[at + 2 * i + 1] := 0;
        SpelledUnchanged(before, buf[..], at, s[..i]);
        assert s[..i + 1][..i] == s[..i];
      }
      assert s[..|s|] == s;
      WordUnchanged(words, buf[..], field);
      WordUnchanged(words, buf[..], field + 4);
    }
  }

  lemma WordUnchanged(before: seq<byte>, after: seq<byte>, at: nat)
    requires |after| == |before| && at + 4 <= |before|
    requires forall i :: at <= i < at + 4 ==> after[i] == before[i]
    ensures Word32(after, at) == Word32(before, at)
  {
  }

  lemma PlacedUnchanged(before: seq<byte>, after: seq<byte>, field: nat, at: nat, s: Text)
    requires |after| == |before| && Placed(before, field, at, s)
    requires forall i :: field <= i < field + 8 ==> after[i] == before[i]
    requires forall i :: at <= i < at + 2 * |s| ==> after[i] == before[i]
    ensures Placed(after, field, at, s)
  {
    WordUnchanged(before, after, field);
    WordUnchanged(before, after, field + 4);
    SpelledUnchanged(before, after, at, s);
  }

  method ReadWord32(buf: array<byte>, at: nat) returns (n: nat)
    requires at + 4 <= buf.Length
    ensures n == Word32(buf[..], at)
  {
    var b0: int, b1: int, b2: int, b3: int := buf[at], buf[at + 1], buf[at + 2], buf[at + 3];
    n := b0 + 0x100 * b1 + 0x1_0000 * b2 + 0x100_0000 * b3;
  }

  /** Allocates and fills the request; where the next string goes is read back from the size just written. */
  method PopulateConnectData(apn: Option<Text>, user: Option<Text>, password: Option<Text>)
      returns (buf: array<byte>, size: nat)
    requires FixedSize + DataSize(Characters(apn), Characters(user), Characters(password)) < 0x1_0000_0000
    ensures fresh(buf) && size == DataSize(Characters(apn), Characters(user), Characters(password))
    ensures LaidOut(buf[..], Characters(apn), Characters(user), Characters(password))
  {
    var a, u, p := Characters(apn), Characters(user), Characters(password);
    size := 0;
    if apn.Some? { size := size + 2 * |apn.value|; }
    if user.Some? { size := size + 2 * |user.value|; }
    if password.Some? { size := size + 2 * |password.value|; }
    buf := new byte[FixedSize + size](_ => 0);
    var offset := PlaceAccessString(buf, a);
    offset := PlaceUserName(buf, offset, a, u);
    PlacePassword(buf, offset, a, u, p);
  }

  ghost predicate Unset(b: seq<byte>, field: nat) {
    field + 8 <= |b| && Word32(b, field) == 0 && Word32(b, field + 4) == 0
  }

  method PlaceAccessString(buf: array<byte>, a: Text) returns (offset: nat)
    requires FixedSize + 2 * |a| <= buf.Length < 0x1_0000_0000 && forall i :: 0 <= i < buf.Length ==> buf[i] == 0
    modifies buf
    ensures offset == 2 * |a| && Placed(buf[..], AccessString, FixedSize, a)
    ensures Unset(buf[..], UserName) && Unset(buf[..], Password)
  {
    ghost var before := buf[..];
    ZerosAreBlank(before, AccessString);
    ZerosAreBlank(before, UserName);
    ZerosAreBlank(before, Password);
    PlaceString(buf, AccessString, FixedSize, a);
    KeepsBlank(before, buf[..], AccessString, FixedSize, 2 * |a|, UserName);
    KeepsBlank(before, buf[..], AccessString, FixedSize, 2 * |a|, Password);
    offset := ReadWord32(buf, AccessString + 4);
  }

  method PlaceUserName(buf: array<byte>, start: nat, ghost a: Text, u: Text) returns (offset: nat)
    requires start == 2 * |a| && FixedSize + start + 2 * |u| <= buf.Length < 0x1_0000_0000
    requires Placed(buf[..], AccessString, FixedSize, a) && Unset(buf[..], UserName) && Unset(buf[..], Password)
    modifies buf
    ensures offset == start + 2 * |u| && Placed(buf[..], AccessString, FixedSize, a)
    ensures Placed(buf[..], UserName, FixedSize + start, u) && Unset(buf[..], Password)
  {
    ghost var before := buf[..];
    PlaceString(buf, UserName, FixedSize + start, u);
    KeepsBlank(before, buf[..], UserName, FixedSize + start, 2 * |u|, Password);
    KeepsPlaced(before, buf[..], UserName, FixedSize + start, 2 * |u|, AccessString, FixedSize, a);
    var written := ReadWord32(buf, UserName + 4);
    offset := start + written;
  }

  method PlacePassword(buf: array<byte>, start: nat, ghost a: Text, ghost u: Text, p: Text)
    requires start == 2 * |a| + 2 * |u| && FixedSize + start + 2 * |p| <= buf.Length < 0x1_0000_0000
    requires Placed(buf[..], AccessString, FixedSize, a) && Placed(buf[..], UserName, FixedSize + 2 * |a|, u)
    requires Unset(buf[..], Password)
    modifies buf
    ensures Placed(buf[..], AccessString, FixedSize, a) && Placed(buf[..], UserName, FixedSize + 2 * |a|, u)
    ensures Placed(buf[..], Password, FixedSize + start, p)
  {
    ghost var before := buf[..];
    PlaceString(buf, Password, FixedSize + start, p);
    KeepsPlaced(before, buf[..], Password, FixedSize + start, 2 * |p|, AccessString, FixedSize, a);
    KeepsPlaced(before, buf[..], Password, FixedSize + start, 2 * |p|, UserName, FixedSize + 2 * |a|, u);
  }

  /** The reader; its buffer does not grow, so the caller must not ask for more than fits. */
  method GetSegment(msg: array<byte>, offset: nat, size: nat) returns (s: seq<byte>)
    requires offset + size <= msg.Length && size / 2 <= ReaderLimit
    ensures s == Segment(msg[..], offset, size)
  {
    var buff := new byte[ReaderLimit + 1](_ => 0);
    for i := 0 to size / 2
      invariant forall j :: 0 <= j < i ==> buff[j] == msg[offset + j * 2]
    {
      buff[i] := msg[offset + i * 2];
    }
    buff[size / 2] := 0;
    s := buff[..size / 2];
  }

  /** The request with its other fields filled in: the strings stay where they were placed. */
  method SetConnect(session: nat, activate: bool, auth: nat, ipType: nat, context: seq<byte>,
                    apn: Option<Text>, user: Option<Text>, password: Option<Text>) returns (buf: array<byte>)
    requires FixedSize + DataSize(Characters(apn), Characters(user), Characters(password)) < 0x1_0000_0000
    requires session < 0x1_0000_0000 && auth < 0x1_0000_0000 && ipType < 0x1_0000_0000 && |context| == 16
    ensures LaidOut(buf[..], Characters(apn), Characters(user), Characters(password))
    ensures Word32(buf[..], 0) == session && Word32(buf[..], 4) == if activate then 1 else 0
    ensures Word32(buf[..], 32) == 0 && Word32(buf[..], 36) == auth && Word32(buf[..], 40) == ipType
    ensures buf[44..60] == context
  {
    var size;
    buf, size := PopulateConnectData(apn, user, password);
    ghost var s0 := buf[..];
    FillFixedPart(buf, session, activate, auth, ipType, context);
    StringsUnchanged(s0, buf[..], Characters(apn), Characters(user), Characters(password));
  }

  lemma {:induction false} StringsUnchanged(before: seq<byte>, after: seq<byte>, a: Text, u: Text, p: Text)
    requires LaidOut(before, a, u, p) && |after| == |before|
    requires forall i :: 8 <= i < 32 || 60 <= i < |before| ==> after[i] == before[i]
    ensures LaidOut(after, a, u, p)
  {
    PlacedUnchanged(before, after, AccessString, FixedSize, a);
    PlacedUnchanged(before, after, UserName, FixedSize + 2 * |a|, u);
    PlacedUnchanged(before, after, Password, FixedSize + 2 * |a| + 2 * |u|, p);
  }

  method FillFixedPart(buf: array<byte>, session: nat, activate: bool, auth: nat, ipType: nat, context: seq<byte>)
    requires buf.Length >= FixedSize && |context| == 16
    requires session < 0x1_0000_0000 && auth < 0x1_0000_0000 && ipType < 0x1_0000_0000
    modifies buf
    ensures Word32(buf[..], 0) == session && Word32(buf[..], 4) == if activate then 1 else 0
    ensures Word32(buf[..], 32) == 0 && Word32(buf[..], 36) == auth && Word32(buf[..], 40) == ipType
    ensures buf[44..60] == context
    ensures forall i :: 8 <= i < 32 || 60 <= i < buf.Length ==> buf[i] == old(buf[i])
  {
    PutWord32(buf, 0, session);
    ghost var s1 := buf[..];
    PutWord32(buf, 4, if activate then 1 else 0);
    ghost var s2 := buf[..];
    PutWord32(buf, 32, 0);
    ghost var s3 := buf[..];
    PutWord32(buf, 36, auth);
    ghost var s4 := buf[..];
    PutWord32(buf, 40, ipType);
    ghost var s5 := buf[..];
    PutContext(buf, context);
    ghost var s6 := buf[..];
    WordUnchanged(s1, s6, 0);
    WordUnchanged(s2, s6, 4);
    WordUnchanged(s3, s6, 32);
    WordUnchanged(s4, s6, 36);
    WordUnchanged(s5, s6, 40);
  }

  method PutContext(buf: array<byte>, context: seq<byte>)
    requires buf.Length >= FixedSize && |context| == 16
    modifies buf
    ensures buf[44..60] == context
    ensures forall i :: 0 <= i < 44 || 60 <= i < buf.Length ==> buf[i] == old(buf[i])
  {
    for i := 0 to 16
      invariant buf[44..44 + i] == context[..i]
      invariant forall j :: 0 <= j < 44 || 60 <= j < buf.Length ==> buf[j] == old(buf[j])
    {
      buf[44 + i] := context[i];
    }
  }
}
