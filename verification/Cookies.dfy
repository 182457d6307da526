/** Signed cookies, internal/httpapi/cookies.go, on byte strings.  The keyed hash is any function
    of a key and an input. */
module Cookies {
  import opened Wrappers

  type byte = b: int | 0 <= b < 256

  const DOT: byte := 46
  const BAR: byte := 124
  const COLON: byte := 58
  const MINUS: byte := 45
  const PLUS: byte := 43
  const ZERO: byte := 48

  // ----- Unpadded base64url, sections 3.2 and 5 of RFC 4648 -----

  type sextet = v: int | 0 <= v < 64

  function Symbol(v: sextet): (c: byte) {
    if v < 26 then 65 + v else if v < 52 then 71 + v else if v < 62 then v - 4 else if v == 62 then 45 else 95
  }

  function Sextet(c: byte): Option<sextet> {
    if 65 <= c <= 90 then Some(c - 65)
    else if 97 <= c <= 122 then Some(c - 71)
    else if 48 <= c <= 57 then Some(c + 4)
    else if c == 45 then Some(62)
    else if c == 95 then Some(63)
    else None
  }

  lemma SymbolDecodes(v: sextet)
    ensures Sextet(Symbol(v)) == Some(v)
    ensures Symbol(v) != DOT && Symbol(v) != 10 && Symbol(v) != 13
  {
  }

  // Three bytes are four sextets.

  function Sextet0(a: byte): sextet {
    a / 4
  }

  function Sextet1(a: byte, b: byte): sextet {
    a % 4 * 16 + b / 16
  }

  function Sextet2(b: byte, c: byte): sextet {
    b % 16 * 4 + c / 64
  }

  function Sextet3(c: byte): sextet {
    c % 64
  }

  function Byte0(v0: sextet, v1: sextet): byte {
    v0 * 4 + v1 / 16
  }

  function Byte1(v1: sextet, v2: sextet): byte {
    v1 % 16 * 16 + v2 / 4
  }

  function Byte2(v2: sextet, v3: sextet): byte {
    v2 % 4 * 64 + v3
  }

  lemma Regroup(a: byte, b: byte, c: byte)
    ensures Byte0(Sextet0(a), Sextet1(a, b)) == a
    ensures Byte1(Sextet1(a, b), Sextet2(b, c)) == b
    ensures Byte2(Sextet2(b, c), Sextet3(c)) == c
  {
    assert Sextet1(a, b) / 16 == a % 4 && Sextet1(a, b) % 16 == b / 16;
    assert Sextet2(b, c) / 4 == b % 16 && Sextet2(b, c) % 4 == c / 64;
  }

  function Split(s: seq<byte>): seq<sextet>
    decreases |s|
  {
    if |s| == 0 then []
    else if |s| == 1 then [Sextet0(s[0]), Sextet1(s[0], 0)]
    else if |s| == 2 then [Sextet0(s[0]), Sextet1(s[0], s[1]), Sextet2(s[1], 0)]
    else [Sextet0(s[0]), Sextet1(s[0], s[1]), Sextet2(s[1], s[2]), Sextet3(s[2])] + Split(s[3..])
  }

  /** The unused low bits of the last sextet are ignored, and a single one left over is no byte. */
  function Join(v: seq<sextet>): Option<seq<byte>>
    decreases |v|
  {
    if |v| == 0 then Some([])
    else if |v| == 1 then None
    else if |v| == 2 then Some([Byte0(v[0], v[1])])
    else if |v| == 3 then Some([Byte0(v[0], v[1]), Byte1(v[1], v[2])])
    else
      match Join(v[4..])
      case None => None
      case Some(rest) => Some([Byte0(v[0], v[1]), Byte1(v[1], v[2]), Byte2(v[2], v[3])] + rest)
  }

  function Write(v: seq<sextet>): (r: seq<byte>)
    ensures |r| == |v|
  {
    if v == [] then [] else [Symbol(v[0])] + Write(v[1..])
  }

  function Read(s: seq<byte>): Option<seq<sextet>> {
    if s == [] then Some([])
    else
      match (Sextet(s[0]), Read(s[1..]))
      case (Some(v), Some(rest)) => Some([v] + rest)
      case _ => None
  }

  function Encode(s: seq<byte>): seq<byte> {
    Write(Split(s))
  }

  /** Line breaks are skipped. */
  function Unbroken(s: seq<byte>): seq<byte> {
    if s == [] then [] else (if s[0] == 10 || s[0] == 13 then [] else [s[0]]) + Unbroken(s[1..])
  }

  function Decode(s: seq<byte>): Option<seq<byte>> {
    match Read(Unbroken(s))
    case None => None
    case Some(v) => Join(v)
  }

  predicate Plain(s: seq<byte>) {
    forall k :: 0 <= k < |s| ==> s[k] != DOT && s[k] != 10 && s[k] != 13
  }

  lemma {:induction false} PlainIsUnbroken(s: seq<byte>)
    requires Plain(s)
    ensures Unbroken(s) == s
  {
    if s == [] {
    } else {
      PlainIsUnbroken(s[1..]);
      assert s == [s[0]] + s[1..];
    }
  }

  lemma {:induction false} WritingIsPlain(v: seq<sextet>)
    ensures Plain(Write(v))
  {
    if v == [] {
    } else {
      SymbolDecodes(v[0]);
      WritingIsPlain(v[1..]);
    }
  }

  lemma {:induction false} ReadsWhatItWrites(v: seq<sextet>)
    ensures Read(Write(v)) == Some(v)
  {
    if v == [] {
    } else {
      SymbolDecodes(v[0]);
      ReadsWhatItWrites(v[1..]);
      assert Write(v)[1..] == Write(v[1..]) && v == [v[0]] + v[1..];
    }
  }

  lemma {:induction false} JoinsWhatItSplits(s: seq<byte>)
    ensures Join(Split(s)) == Some(s)
    decreases |s|
  {
    hide Sextet0, Sextet1, Sextet2, Sextet3, Byte0, Byte1, Byte2;
    if |s| >= 3 {
      Regroup(s[0], s[1], s[2]);
      JoinsWhatItSplits(s[3..]);
      assert Split(s)[4..] == Split(s[3..]);
      assert s == [s[0], s[1], s[2]] + s[3..];
    } else if |s| == 2 {
      Regroup(s[0], s[1], 0);
      assert s == [s[0], s[1]];
    } else if |s| == 1 {
      Regroup(s[0], 0, 0);
      assert s == [s[0]];
    }
  }

  /** Decoding undoes encoding for every byte string. */
  lemma EncodingRoundTrips(s: seq<byte>)
    ensures Decode(Encode(s)) == Some(s)
  {
    hide Split, Join, Write, Read;
    WritingIsPlain(Split(s));
    PlainIsUnbroken(Encode(s));
    ReadsWhatItWrites(Split(s));
    JoinsWhatItSplits(s);
  }

  /** The URL-safe alphabet, table 2 of RFC 4648. */
  lemma SymbolIsOfAlphabet(v: sextet)
    ensures v <= 25 ==> Symbol(v) == 'A' as int + v
    ensures 26 <= v <= 51 ==> Symbol(v) == 'a' as int + (v - 26)
    ensures 52 <= v <= 61 ==> Symbol(v) == '0' as int + (v - 52)
    ensures v == 62 ==> Symbol(v) == '-' as int
    ensures v == 63 ==> Symbol(v) == '_' as int
  {
  }

  /** The `k`-th group of three bytes as one number of 24 bits, with zeros for the bytes that are missing. */
  function Group(s: seq<byte>, k: nat): nat
    requires 3 * k < |s|
  {
    s[3 * k] * 65536 + (if 3 * k + 1 < |s| then s[3 * k + 1] * 256 else 0)
      + (if 3 * k + 2 < |s| then s[3 * k + 2] as int else 0)
  }

  /** The four digits to base 64 of a number of 24 bits. */
  function Digits64(n: nat): seq<sextet>
    requires n < 0x100_0000
  {
    [n / 64 / 64 / 64, n / 64 / 64 % 64, n / 64 % 64, n % 64]
  }

  lemma SplitsOff(n: nat, high: nat, low: nat)
    requires n == 64 * high + low && low < 64
    ensures n / 64 == high && n % 64 == low
  {
  }

  lemma SextetsOfGroup(a: byte, b: byte, c: byte)
    ensures var n := a * 65536 + b * 256 + c;
            n < 0x100_0000 && Digits64(n) == [Sextet0(a), Sextet1(a, b), Sextet2(b, c), Sextet3(c)]
  {
    SplitsOff(a * 65536 + b * 256 + c, 1024 * a + 4 * b + c / 64, c % 64);
    SplitsOff(1024 * a + 4 * b + c / 64, 16 * a + b / 16, Sextet2(b, c));
    SplitsOff(16 * a + b / 16, a / 4, Sextet1(a, b));
  }

  lemma {:induction false} SplitsGroupByGroup(s: seq<byte>, k: nat)
    requires 3 * k < |s|
    ensures |Split(s)| == (4 * |s| + 2) / 3 && Group(s, k) < 0x100_0000 && 4 * k < |Split(s)|
    ensures forall j :: 0 <= j < 4 && 4 * k + j < |Split(s)| ==> Split(s)[4 * k + j] == Digits64(Group(s, k))[j]
    decreases |s|
  {
    hide Sextet0, Sextet1, Sextet2, Sextet3, Digits64;
    if k == 0 {
      SextetsOfGroup(s[0], if |s| > 1 then s[1] else 0, if |s| > 2 then s[2] else 0);
    }
    if |s| > 3 {
      SplitsGroupByGroup(s[3..], if k == 0 then 0 else k - 1);
      assert k > 0 ==> Group(s[3..], k - 1) == Group(s, k);
    }
  }

  lemma {:induction false} WrittenAt(v: seq<sextet>, i: nat)
    requires i < |v|
    ensures Write(v)[i] == Symbol(v[i])
  {
    if i == 0 {
    } else {
      WrittenAt(v[1..], i - 1);
    }
  }

  /** Each group of bytes is written with its four symbols, and the last with as many as its bytes need. */
  lemma EncodesGroupByGroup(s: seq<byte>, k: nat, j: nat)
    requires 3 * k < |s| && j < 4
    ensures |Encode(s)| == (4 * |s| + 2) / 3 && Group(s, k) < 0x100_0000 && 4 * k < |Encode(s)|
    ensures 4 * k + j < |Encode(s)| ==> Encode(s)[4 * k + j] == Symbol(Digits64(Group(s, k))[j])
  {
    hide Split, Write, Symbol, Digits64, Group;
    SplitsGroupByGroup(s, k);
    if 4 * k + j < |Encode(s)| {
      WrittenAt(Split(s), 4 * k + j);
    }
  }

  // ----- Cutting at a separator -----

  /** The parts before and after the first separator. */
  function Cut(s: seq<byte>, sep: byte): Option<(seq<byte>, seq<byte>)> {
    if s == [] then None
    else if s[0] == sep then Some(([], s[1..]))
    else
      match Cut(s[1..], sep)
      case None => None
      case Some(parts) => Some(([s[0]] + parts.0, parts.1))
  }

  lemma {:induction false} CutsAtFirst(a: seq<byte>, sep: byte, b: seq<byte>)
    requires sep !in a
    ensures Cut(a + [sep] + b, sep) == Some((a, b))
  {
    if a == [] {
      assert [] + [sep] + b == [sep] + b;
      assert ([sep] + b)[1..] == b;
    } else {
      assert (a + [sep] + b)[1..] == a[1..] + [sep] + b;
      CutsAtFirst(a[1..], sep, b);
      assert a == [a[0]] + a[1..];
    }
  }

  lemma {:induction false} CutSplits(s: seq<byte>, sep: byte)
    ensures Cut(s, sep).Some? ==> var (a, b) := Cut(s, sep).value; sep !in a && s == a + [sep] + b
  {
    if s != [] && s[0] != sep {
      CutSplits(s[1..], sep);
      assert s == [s[0]] + s[1..];
    }
  }

  // ----- Decimal numbers -----

  predicate IsDigit(c: byte) {
    48 <= c <= 57
  }

  function Itoa(n: nat): seq<byte> {
    if n < 10 then [ZERO + n] else Itoa(n / 10) + [ZERO + n % 10]
  }

  /** The value of the first `n` digits. */
  function Digits(s: seq<byte>, n: nat): (r: Option<nat>)
    requires n <= |s|
  {
    if n == 0 then Some(0)
    else
      match Digits(s, n - 1)
      case None => None
      case Some(front) => if IsDigit(s[n - 1]) then Some(front * 10 + s[n - 1] - ZERO) else None
  }

  lemma {:induction false} DigitsOfPrefix(s: seq<byte>, t: seq<byte>, n: nat)
    requires n <= |s|
    ensures Digits(s + t, n) == Digits(s, n)
  {
    if n == 0 {
    } else {
      DigitsOfPrefix(s, t, n - 1);
    }
  }

  lemma {:induction false} ItoaDigits(n: nat)
    ensures |Itoa(n)| > 0 && Digits(Itoa(n), |Itoa(n)|) == Some(n)
    ensures forall k :: 0 <= k < |Itoa(n)| ==> IsDigit(Itoa(n)[k])
  {
    if n >= 10 {
      ItoaDigits(n / 10);
      DigitsOfPrefix(Itoa(n / 10), [ZERO + n % 10], |Itoa(n / 10)|);
    } else {
      assert Digits(Itoa(n), 0) == Some(0);
    }
  }

  function FormatInt(i: int): seq<byte> {
    if i < 0 then [MINUS] + Itoa(-i) else Itoa(i)
  }

  predicate IsInt64(i: int) {
    -0x8000_0000_0000_0000 <= i < 0x8000_0000_0000_0000
  }

  /** An optional sign, at least one digit and nothing else, in range. */
  function ParseInt(s: seq<byte>): Option<int> {
    var signed := s != [] && (s[0] == MINUS || s[0] == PLUS);
    var digits := if signed then s[1..] else s;
    if digits == [] then None
    else
      match Digits(digits, |digits|)
      case None => None
      case Some(n) =>
        var i := (if signed && s[0] == MINUS then -1 else 1) * n;
        if IsInt64(i) then Some(i) else None
  }

  lemma ParsesWhatItFormats(i: int)
    ensures ParseInt(FormatInt(i)) == if IsInt64(i) then Some(i) else None
    ensures BAR !in FormatInt(i)
  {
    ItoaDigits(if i < 0 then -i else i);
    if i < 0 {
      assert FormatInt(i)[1..] == Itoa(-i);
    }
  }

  // ----- Signing -----

  type Hash = (seq<byte>, seq<byte>) -> seq<byte>

  function MacInput(name: seq<byte>, payload: seq<byte>): seq<byte> {
    Itoa(|name|) + [COLON] + (name + payload)
  }

  function Sign(hash: Hash, key: seq<byte>, name: seq<byte>, payload: seq<byte>): seq<byte> {
    Encode(payload) + [DOT] + Encode(hash(key, MacInput(name, payload)))
  }

  function Unsign(hash: Hash, key: seq<byte>, name: seq<byte>, value: seq<byte>): Option<seq<byte>> {
    match Cut(value, DOT)
    case None => None
    case Some((rawPayload, rawMac)) =>
      match (Decode(rawPayload), Decode(rawMac))
      case (Some(payload), Some(got)) => if got == hash(key, MacInput(name, payload)) then Some(payload) else None
      case _ => None
  }

  /** No two pairs of name and payload are hashed alike for want of a delimiter. */
  lemma MacInputIsInjective(name: seq<byte>, payload: seq<byte>, name': seq<byte>, payload': seq<byte>)
    requires MacInput(name, payload) == MacInput(name', payload')
    ensures name == name' && payload == payload'
  {
    ItoaDigits(|name|);
    ItoaDigits(|name'|);
    CutsAtFirst(Itoa(|name|), COLON, name + payload);
    CutsAtFirst(Itoa(|name'|), COLON, name' + payload');
    assert name + payload == name' + payload' && |name| == |name'|;
    assert name == (name + payload)[..|name|] && payload == (name + payload)[|name|..];
    assert name' == (name' + payload')[..|name'|] && payload' == (name' + payload')[|name'|..];
  }

  /** Read under any cookie name and key, a signed value yields its own payload, exactly when the
      two hashes agree. */
  lemma UnsignOfSign(hash: Hash, key: seq<byte>, name: seq<byte>, payload: seq<byte>, key': seq<byte>, name': seq<byte>)
    ensures Unsign(hash, key', name', Sign(hash, key, name, payload))
            == if hash(key', MacInput(name', payload)) == hash(key, MacInput(name, payload)) then Some(payload)
               else None
  {
    var signature := hash(key, MacInput(name, payload));
    WritingIsPlain(Split(payload));
    CutsAtFirst(Encode(payload), DOT, Encode(signature));
    EncodingRoundTrips(payload);
    EncodingRoundTrips(signature);
  }

  /** A cookie reads back; under another name it does only if the hash collides on two different inputs. */
  lemma CookiesReadBack(hash: Hash, key: seq<byte>, name: seq<byte>, payload: seq<byte>, name': seq<byte>)
    ensures Unsign(hash, key, name, Sign(hash, key, name, payload)) == Some(payload)
    ensures name' != name ==> MacInput(name', payload) != MacInput(name, payload)
    ensures name' != name && hash(key, MacInput(name', payload)) != hash(key, MacInput(name, payload)) ==>
              Unsign(hash, key, name', Sign(hash, key, name, payload)).None?
  {
    UnsignOfSign(hash, key, name, payload, key, name);
    UnsignOfSign(hash, key, name, payload, key, name');
    if MacInput(name', payload) == MacInput(name, payload) {
      MacInputIsInjective(name', payload, name, payload);
    }
  }

  /** A value is accepted only with the signature of the very payload it yields. */
  lemma AcceptedIsSigned(hash: Hash, key: seq<byte>, name: seq<byte>, value: seq<byte>)
    returns (rawPayload: seq<byte>, rawMac: seq<byte>)
    requires Unsign(hash, key, name, value).Some?
    ensures value == rawPayload + [DOT] + rawMac && DOT !in rawPayload
    ensures Decode(rawPayload) == Unsign(hash, key, name, value)
    ensures Decode(rawMac) == Some(hash(key, MacInput(name, Unsign(hash, key, name, value).value)))
  {
    CutSplits(value, DOT);
    rawPayload, rawMac := Cut(value, DOT).value.0, Cut(value, DOT).value.1;
  }

  // ----- Expiring cookies -----

  const NANOS: int := 1_000_000_000

  /** Whole seconds since the epoch, rounded down. */
  function Unix(t: int): int {
    t / NANOS
  }

  function SignExpiring(hash: Hash, key: seq<byte>, name: seq<byte>, payload: seq<byte>, expires: int): seq<byte> {
    Sign(hash, key, name, FormatInt(Unix(expires)) + [BAR] + payload)
  }

  /** Times are in nanoseconds since the epoch. */
  function UnsignExpiring(hash: Hash, key: seq<byte>, name: seq<byte>, value: seq<byte>, now: int): Option<seq<byte>> {
    match Unsign(hash, key, name, value)
    case None => None
    case Some(signed) =>
      match Cut(signed, BAR)
      case None => None
      case Some((rawExpiry, payload)) =>
        match ParseInt(rawExpiry)
        case None => None
        case Some(unix) => if now < unix * NANOS then Some(payload) else None
  }

  /** A session reads back exactly until the whole second it expires in, whatever its payload holds. */
  lemma SessionsReadBack(hash: Hash, key: seq<byte>, name: seq<byte>, payload: seq<byte>, expires: int, now: int)
    requires IsInt64(Unix(expires))
    ensures UnsignExpiring(hash, key, name, SignExpiring(hash, key, name, payload, expires), now)
            == if now < expires - expires % NANOS then Some(payload) else None
  {
    var stamp := FormatInt(Unix(expires));
    CookiesReadBack(hash, key, name, stamp + [BAR] + payload, name);
    ParsesWhatItFormats(Unix(expires));
    CutsAtFirst(stamp, BAR, payload);
  }
}
