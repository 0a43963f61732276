/** Splitting, joining and trimming text, and reading numbers the way the agent does. */
module Strings {
  import opened Wrappers

  function Split(s: string, c: char): (parts: seq<string>)
    ensures |parts| >= 1
  {
    if s == "" then [""]
    else
      var rest := Split(s[1..], c);
      if s[0] == c then [""] + rest else [[s[0]] + rest[0]] + rest[1..]
  }

  function Join(parts: seq<string>, c: char): string {
    if parts == [] then "" else if |parts| == 1 then parts[0] else parts[0] + [c] + Join(parts[1..], c)
  }

  lemma {:induction false} SplitPlain(s: string, c: char)
    requires c !in s
    ensures Split(s, c) == [s]
  {
    if s != "" {
      SplitPlain(s[1..], c);
      assert s == [s[0]] + s[1..] && s[0] in s;
    }
  }

  lemma {:induction false} SplitCons(p: string, rest: string, c: char)
    requires c !in p
    ensures Split(p + [c] + rest, c) == [p] + Split(rest, c)
    decreases |p|
  {
    var s := p + [c] + rest;
    if p == "" {
      assert s[1..] == rest;
    } else {
      assert s[1..] == p[1..] + [c] + rest;
      SplitCons(p[1..], rest, c);
      assert p == [p[0]] + p[1..] && s[0] == p[0] && p[0] in p;
      assert [[p[0]] + p[1..]] + Split(rest, c) == [p] + Split(rest, c);
    }
  }

  lemma {:induction false} SplitJoin(parts: seq<string>, c: char)
    requires parts != [] && forall p :: p in parts ==> c !in p
    ensures Split(Join(parts, c), c) == parts
    decreases |parts|
  {
    assert parts[0] in parts;
    if |parts| == 1 {
      SplitPlain(parts[0], c);
    } else {
      SplitCons(parts[0], Join(parts[1..], c), c);
      SplitJoin(parts[1..], c);
    }
  }

  predicate Space(c: char) {
    c in {'\t', '\n', '\U{0B}', '\U{0C}', '\r', ' ', '\U{85}', '\U{A0}', '\U{1680}', '\U{2028}', '\U{2029}',
        '\U{202F}', '\U{205F}', '\U{3000}'}
    || '\U{2000}' <= c <= '\U{200A}'
  }

  function Trim(s: string): string
    decreases |s|
  {
    if s == "" then ""
    else if Space(s[0]) then Trim(s[1..])
    else if Space(s[|s| - 1]) then Trim(s[..|s| - 1])
    else s
  }

  // ---- Numbers --------------------------------------------------------------------------------------

  const MaxInt64: int := 0x7fff_ffff_ffff_ffff

  /** Scanning stops at the first character that is no digit, or that would overflow 64 bits. */
  datatype Scanned = Value(n: nat) | Syntax | Range

  function DigitValue(c: char): nat {
    if '0' <= c <= '9' then c as int - '0' as int
    else if 'a' <= c <= 'f' then c as int - 'a' as int + 10
    else if 'A' <= c <= 'F' then c as int - 'A' as int + 10
    else 16
  }

  function ScanDigit(n: nat, c: char, base: nat): Scanned {
    if DigitValue(c) >= base then Syntax
    else if n * base + DigitValue(c) > 0xffff_ffff_ffff_ffff then Range
    else Value(n * base + DigitValue(c))
  }

  function Scan(s: string, n: nat, base: nat): Scanned {
    if s == "" then Value(n)
    else
      match ScanDigit(n, s[0], base)
      case Value(m) => Scan(s[1..], m, base)
      case other => other
  }

  function Clamp(negative: bool, r: Scanned): int {
    match r
    case Syntax => 0
    case Range => if negative then -MaxInt64 - 1 else MaxInt64
    case Value(n) =>
      if negative then (if n > MaxInt64 + 1 then -MaxInt64 - 1 else -(n as int))
      else if n > MaxInt64 then MaxInt64 else n
  }

  function Unsigned(s: string, base: nat): Scanned {
    if s == "" then Syntax else Scan(s, 0, base)
  }

  /** Errors are ignored, which leaves 0 for bad syntax and the nearest bound out of range. */
  function ParseInt64(s: string): int {
    if s != "" && s[0] == '-' then Clamp(true, Unsigned(s[1..], 10))
    else if s != "" && s[0] == '+' then Clamp(false, Unsigned(s[1..], 10))
    else Clamp(false, Unsigned(s, 10))
  }

  function ParseInt(s: string): int {
    if s == "(none)" || s == "off" then 0
    else if |s| >= 2 && s[..2] == "0x" then Clamp(false, Unsigned(s[2..], 16))
    else ParseInt64(s)
  }

  function DigitChar(d: nat): char
    requires d < 16
  {
    "0123456789abcdef"[d]
  }

  function Digits(n: nat, base: nat): (s: string)
    requires 2 <= base <= 16
    ensures |s| >= 1
  {
    if n < base then [DigitChar(n)] else Digits(n / base, base) + [DigitChar(n % base)]
  }

  lemma {:induction false} ScanAppend(s: string, c: char, n: nat, base: nat)
    requires Scan(s, n, base).Value?
    ensures Scan(s + [c], n, base) == ScanDigit(Scan(s, n, base).n, c, base)
    decreases |s|
  {
    if s == "" {
      assert (s + [c])[1..] == "";
      assert Scan("", 0, base) == Value(0);
    } else {
      assert (s + [c])[1..] == s[1..] + [c];
      ScanAppend(s[1..], c, ScanDigit(n, s[0], base).n, base);
    }
  }

  lemma DigitRoundTrip(d: nat)
    requires d < 16
    ensures DigitValue(DigitChar(d)) == d
  {
  }

  lemma {:induction false} DigitsRoundTrip(n: nat, base: nat)
    requires 2 <= base <= 16 && n <= MaxInt64
    ensures Scan(Digits(n, base), 0, base) == Value(n)
    decreases n
  {
    if n < base {
      DigitRoundTrip(n);
      assert Digits(n, base)[1..] == "";
    } else {
      QuotientSmaller(n, base);
      DigitsRoundTrip(n / base, base);
      DigitRoundTrip(n % base);
      ScanAppend(Digits(n / base, base), DigitChar(n % base), 0, base);
    }
  }

  lemma QuotientSmaller(n: nat, base: nat)
    requires 2 <= base <= n
    ensures n / base < n && n / base * base + n % base == n
  {
  }

  predicate IsDigit(c: char) { '0' <= c <= '9' || 'a' <= c <= 'f' }

  lemma {:induction false} DigitsAreDigits(n: nat, base: nat)
    requires 2 <= base <= 16
    ensures forall c :: c in Digits(n, base) ==> IsDigit(c) && (base <= 10 ==> c <= '9')
    decreases n
  {
    if n >= base {
      QuotientSmaller(n, base);
      DigitsAreDigits(n / base, base);
    }
  }

  /** Numbers come back as written, in decimal. */
  lemma {:induction false} DecimalRoundTrip(n: nat)
    requires n <= MaxInt64
    ensures ParseInt64(Digits(n, 10)) == n && ParseInt(Digits(n, 10)) == n
  {
    var s := Digits(n, 10);
    DigitsRoundTrip(n, 10);
    DigitsAreDigits(n, 10);
    assert s[0] in s;
    assert |s| >= 2 ==> s[1] in s;
    assert "off"[0] == 'o' && "(none)"[0] == '(' && "0x"[1] == 'x';
    if |s| >= 2 {
      assert s[..2][1] == s[1];
    }
  }

  lemma HexRoundTrip(n: nat)
    requires n <= MaxInt64
    ensures ParseInt("0x" + Digits(n, 16)) == n
  {
    var s := "0x" + Digits(n, 16);
    DigitsRoundTrip(n, 16);
    assert s[..2] == "0x" && s[2..] == Digits(n, 16);
    assert "off"[0] == 'o' && "(none)"[0] == '(' && s[0] == '0';
  }
}
