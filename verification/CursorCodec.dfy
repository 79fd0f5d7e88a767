/**
 * The opaque pagination token (store/articles_query.go): "<nanoseconds>|<id>" in unpadded
 * base64url, section 5 of RFC 4648. Go strings are byte strings: here, characters below 256.
 */
module CursorCodec {
  import opened Wrappers
  import opened Text

  datatype Cursor = Cursor(nanos: int, id: string)

  datatype CursorError = BadEncoding | BadPayload | BadTimestamp

  predicate InInt64(n: int) {
    -0x8000_0000_0000_0000 <= n < 0x8000_0000_0000_0000
  }

  predicate ByteString(s: string) {
    forall i | 0 <= i < |s| :: s[i] as int < 256
  }

  // ---------------------------------------------------------------------------------------
  // Base64url
  // ---------------------------------------------------------------------------------------

  type sextet = x: int | 0 <= x < 64

  function Letter(v: sextet): (c: char)
    ensures LetterValue(c) == Some(v) && !IsSpace(c)
  {
    if v < 26 then ('A' as int + v) as char
    else if v < 52 then ('a' as int + v - 26) as char
    else if v < 62 then ('0' as int + v - 52) as char
    else if v == 62 then '-'
    else '_'
  }

  function LetterValue(c: char): Option<sextet> {
    if 'A' <= c <= 'Z' then Some(c as int - 'A' as int)
    else if 'a' <= c <= 'z' then Some(c as int - 'a' as int + 26)
    else if '0' <= c <= '9' then Some(c as int - '0' as int + 52)
    else if c == '-' then Some(62)
    else if c == '_' then Some(63)
    else None
  }

  function ByteAt(s: string, i: nat): (b: int)
    requires ByteString(s) && i < |s|
    ensures 0 <= b < 256
  {
    s[i] as int
  }

  function ToSextets(s: string): (r: seq<sextet>)
    requires ByteString(s)
  {
    if s == "" then []
    else if |s| == 1 then
      [ByteAt(s, 0) / 4, ByteAt(s, 0) % 4 * 16]
    else if |s| == 2 then
      [ByteAt(s, 0) / 4, ByteAt(s, 0) % 4 * 16 + ByteAt(s, 1) / 16, ByteAt(s, 1) % 16 * 4]
    else
      [ByteAt(s, 0) / 4, ByteAt(s, 0) % 4 * 16 + ByteAt(s, 1) / 16,
       ByteAt(s, 1) % 16 * 4 + ByteAt(s, 2) / 64, ByteAt(s, 2) % 64] + ToSextets(s[3..])
  }

  /** The three bytes a group of four sextets stands for. */
  function Octet0(p: int, q: int): int { p * 4 + q / 16 }

  function Octet1(q: int, r: int): int { q % 16 * 16 + r / 4 }

  function Octet2(r: int, t: int): int { r % 4 * 64 + t }

  /** Low bits left over in the last group are dropped; a single left-over sextet is an error. */
  function FromSextets(r: seq<sextet>): Option<string> {
    if r == [] then Some("")
    else if |r| == 1 then None
    else if |r| == 2 then
      Some([Octet0(r[0], r[1]) as char])
    else if |r| == 3 then
      Some([Octet0(r[0], r[1]) as char, Octet1(r[1], r[2]) as char])
    else
      match FromSextets(r[4..])
      case None => None
      case Some(rest) =>
        Some([Octet0(r[0], r[1]) as char, Octet1(r[1], r[2]) as char, Octet2(r[2], r[3]) as char] + rest)
  }

  function Letters(r: seq<sextet>): (s: string)
    ensures |s| == |r| && forall i | 0 <= i < |r| :: s[i] == Letter(r[i])
  {
    seq(|r|, i requires 0 <= i < |r| => Letter(r[i]))
  }

  /** The values of the letters; line breaks are skipped, anything else is an error. */
  function LetterValues(s: string): Option<seq<sextet>> {
    if s == "" then Some([])
    else if s[0] == '\r' || s[0] == '\n' then LetterValues(s[1..])
    else
      match (LetterValue(s[0]), LetterValues(s[1..]))
      case (Some(v), Some(rest)) => Some([v] + rest)
      case _ => None
  }

  function Base64Encode(s: string): string
    requires ByteString(s)
  {
    Letters(ToSextets(s))
  }

  function Base64Decode(token: string): Option<string> {
    match LetterValues(token)
    case None => None
    case Some(r) => FromSextets(r)
  }

  lemma {:induction false} LettersRoundTrip(r: seq<sextet>)
    ensures LetterValues(Letters(r)) == Some(r)
  {
    if r != [] {
      assert Letters(r)[0] == Letter(r[0]);
      assert Letters(r)[1..] == Letters(r[1..]);
      LettersRoundTrip(r[1..]);
      assert r == [r[0]] + r[1..];
    }
  }

  /** Three bytes survive being cut into four sextets. */
  lemma GroupRoundTrip(a: int, b: int, c: int, p: int, q: int, r: int, t: int)
    requires 0 <= a < 256 && 0 <= b < 256 && 0 <= c < 256
    requires p == a / 4 && q == a % 4 * 16 + b / 16 && r == b % 16 * 4 + c / 64 && t == c % 64
    ensures Octet0(p, q) == a && Octet1(q, r) == b && Octet2(r, t) == c
  {
  }

  lemma HalfGroup(a: int, p: int, q: int)
    requires 0 <= a < 256 && p == a / 4 && q == a % 4 * 16
    ensures Octet0(p, q) == a
  {
  }

  lemma OneByteRoundTrip(s: string, a: int, g: seq<sextet>)
    requires ByteString(s) && |s| == 1 && a == ByteAt(s, 0) && g == ToSextets(s)
    ensures FromSextets(g) == Some(s)
  {
    assert |g| == 2 && g[0] == a / 4 && g[1] == a % 4 * 16;
    HalfGroup(a, g[0], g[1]);
    assert s == [a as char];
  }

  lemma TwoBytesRoundTrip(s: string, a: int, b: int, g: seq<sextet>)
    requires ByteString(s) && |s| == 2 && a == ByteAt(s, 0) && b == ByteAt(s, 1) && g == ToSextets(s)
    ensures FromSextets(g) == Some(s)
  {
    assert |g| == 3;
    GroupRoundTrip(a, b, 0, g[0], g[1], g[2], 0);
    assert s == [a as char, b as char];
  }

  predicate Groups(g: seq<sextet>, s: string) {
    && |g| == 4 && |s| == 3
    && s[0] as int == Octet0(g[0], g[1]) && s[1] as int == Octet1(g[1], g[2]) && s[2] as int == Octet2(g[2], g[3])
  }

  lemma ThreeBytes(s: string, g: seq<sextet>)
    requires ByteString(s) && |s| == 3 && g == ToSextets(s)
    ensures Groups(g, s)
  {
    assert s[3..] == "" && ToSextets(s[3..]) == [];
    GroupRoundTrip(ByteAt(s, 0), ByteAt(s, 1), ByteAt(s, 2), g[0], g[1], g[2], g[3]);
  }

  /** Four sextets in front of others. */
  lemma GroupDecodes(g: seq<sextet>, s: string, r: seq<sextet>, rest: string)
    requires Groups(g, s) && FromSextets(r) == Some(rest)
    ensures FromSextets(g + r) == Some(s + rest)
  {
    assert (g + r)[4..] == r;
    assert s == [Octet0(g[0], g[1]) as char, Octet1(g[1], g[2]) as char, Octet2(g[2], g[3]) as char];
  }

  lemma GroupEncodes(s: string, g: string)
    requires ByteString(s) && |s| >= 3 && g == s[..3]
    ensures ToSextets(s) == ToSextets(g) + ToSextets(s[3..])
  {
    assert g[3..] == "" && ToSextets(g[3..]) == [];
    assert ByteAt(g, 0) == ByteAt(s, 0) && ByteAt(g, 1) == ByteAt(s, 1) && ByteAt(g, 2) == ByteAt(s, 2);
  }

  lemma {:induction false} SextetsRoundTrip(s: string)
    requires ByteString(s)
    ensures FromSextets(ToSextets(s)) == Some(s)
    decreases |s|
  {
    if |s| == 1 {
      OneByteRoundTrip(s, ByteAt(s, 0), ToSextets(s));
    } else if |s| == 2 {
      TwoBytesRoundTrip(s, ByteAt(s, 0), ByteAt(s, 1), ToSextets(s));
    } else if |s| >= 3 {
      SextetsRoundTrip(s[3..]);
      GroupEncodes(s, s[..3]);
      ThreeBytes(s[..3], ToSextets(s[..3]));
      GroupDecodes(ToSextets(s[..3]), s[..3], ToSextets(s[3..]), s[3..]);
      assert s == s[..3] + s[3..];
    }
  }

  lemma Base64RoundTrip(s: string)
    requires ByteString(s)
    ensures Base64Decode(Base64Encode(s)) == Some(s)
  {
    LettersRoundTrip(ToSextets(s));
    SextetsRoundTrip(s);
  }

  /** The alphabet of table 2 in RFC 4648, by the letters' codes. */
  lemma AlphabetCodes(v: sextet)
    ensures Letter(v) as int ==
            if v <= 25 then v + 65
            else if v <= 51 then v + 71
            else if v <= 61 then v - 4
            else if v == 62 then 45
            else 95
  {
  }

  /** Three bytes are four letters: the bytes' 24 bits, six at a time. */
  lemma GroupLetters(a: char, b: char, c: char)
    requires a as int < 256 && b as int < 256 && c as int < 256
    ensures var bits := (a as int * 256 + b as int) * 256 + c as int;
      Base64Encode([a, b, c]) ==
      [Letter(bits / 64 / 64 / 64), Letter(bits / 64 / 64 % 64), Letter(bits / 64 % 64), Letter(bits % 64)]
  {
    var s := [a, b, c];
    assert s[3..] == "" && ToSextets(s[3..]) == [];
    SixAtATime(a as int, b as int, c as int, (a as int * 256 + b as int) * 256 + c as int);
  }

  lemma SixAtATime(a: int, b: int, c: int, bits: int)
    requires 0 <= a < 256 && 0 <= b < 256 && 0 <= c < 256 && bits == (a * 256 + b) * 256 + c
    ensures bits / 64 / 64 / 64 == a / 4 && bits / 64 / 64 % 64 == a % 4 * 16 + b / 16
    ensures bits / 64 % 64 == b % 16 * 4 + c / 64 && bits % 64 == c % 64
  {
    var w, x, y, z := a / 4, a % 4 * 16 + b / 16, b % 16 * 4 + c / 64, c % 64;
    assert a == 4 * (a / 4) + a % 4 && b == 16 * (b / 16) + b % 16 && c == 64 * (c / 64) + c % 64;
    assert bits == ((w * 64 + x) * 64 + y) * 64 + z;
    DropDigit((w * 64 + x) * 64 + y, z);
    DropDigit(w * 64 + x, y);
    DropDigit(w, x);
  }

  lemma DropDigit(q: int, r: int)
    requires 0 <= r < 64
    ensures (q * 64 + r) / 64 == q && (q * 64 + r) % 64 == r
  {
  }

  // ---------------------------------------------------------------------------------------
  // Printing and scanning 64-bit integers
  // ---------------------------------------------------------------------------------------

  function PrintInt(n: int): string {
    if n < 0 then "-" + Digits(-n) else Digits(n)
  }

  /** Scanning with %d: leading blanks, one sign, a run of digits; what follows is ignored. */
  function ScanInt(s: string): Option<int> {
    var t := SkipBlanks(s);
    if t == "" then None
    else if t[0] == '-' then ScanDigits(t[1..], true)
    else if t[0] == '+' then ScanDigits(t[1..], false)
    else ScanDigits(t, false)
  }

  function ScanDigits(u: string, negative: bool): Option<int> {
    var n := DigitRun(u);
    if n == 0 then None
    else
      var v: int := Value(u[..n]);
      var signed := if negative then -v else v;
      if InInt64(signed) then Some(signed) else None
  }

  function SkipBlanks(s: string): string {
    if s != "" && IsSpace(s[0]) && s[0] != '\n' then SkipBlanks(s[1..]) else s
  }

  lemma ScanOfDigits(m: nat, rest: string, negative: bool, n: int)
    requires rest != "" ==> !IsDigit(rest[0])
    requires InInt64(n) && m == if negative then -n else n
    ensures ScanDigits(Digits(m) + rest, negative) == Some(n)
  {
    var u := Digits(m) + rest;
    assert u[..|Digits(m)|] == Digits(m);
    DigitRunIs(u, |Digits(m)|);
    ValueOfDigits(m);
  }

  /** Text that starts with a sign or a digit has no blanks to skip. */
  lemma NothingToSkip(s: string)
    requires s != "" && (s[0] == '-' || IsDigit(s[0]))
    ensures SkipBlanks(s) == s
  {
  }

  lemma ScanOfPrint(n: int, rest: string)
    requires InInt64(n) && (rest != "" ==> !IsDigit(rest[0]))
    ensures ScanInt(PrintInt(n) + rest) == Some(n)
  {
    var s := PrintInt(n) + rest;
    var d := Digits(if n < 0 then -n else n);
    NothingToSkip(s);
    if n < 0 {
      assert s[1..] == d + rest;
      ScanOfDigits(-n, rest, true, n);
    } else {
      ScanOfDigits(n, rest, false, n);
    }
  }

  // ---------------------------------------------------------------------------------------
  // The cursor
  // ---------------------------------------------------------------------------------------

  predicate Encodable(c: Cursor) {
    InInt64(c.nanos) && ByteString(c.id)
  }

  function Raw(c: Cursor): (s: string)
    requires Encodable(c)
    ensures ByteString(s)
  {
    PrintInt(c.nanos) + ['|'] + c.id
  }

  function Encode(c: Cursor): (token: string)
    requires Encodable(c)
  {
    Base64Encode(Raw(c))
  }

  /** A blank token asks for the first page. */
  function DecodeCursor(token: string): Result<Option<Cursor>, CursorError> {
    if IsBlank(token) then Ok(None)
    else
      match Base64Decode(token)
      case None => Err(BadEncoding)
      case Some(raw) =>
        var bar := IndexOf(raw, '|');
        if bar == |raw| then Err(BadPayload)
        else
          match ScanInt(raw[..bar])
          case None => Err(BadTimestamp)
          case Some(nanos) => Ok(Some(Cursor(nanos, raw[bar + 1..])))
  }

  /**
   * Decoding an encoded cursor gives back the same instant and id: for every 64-bit instant,
   * negative ones included, and every id, even one that contains the separator.
   */
  lemma CursorRoundTrip(c: Cursor)
    requires Encodable(c)
    ensures DecodeCursor(Encode(c)) == Ok(Some(c))
  {
    var raw := Raw(c);
    var p := PrintInt(c.nanos);
    Base64RoundTrip(raw);
    TokenNotBlank(c);
    assert '|' !in p;
    IndexOfIs(p, '|', c.id);
    assert raw[..|p|] == p && raw[|p| + 1..] == c.id;
    ScanOfPrint(c.nanos, "");
    assert p + "" == p;
  }

  /** An encoded cursor is never mistaken for a request for the first page. */
  lemma TokenNotBlank(c: Cursor)
    requires Encodable(c)
    ensures Encode(c) != "" && !IsBlank(Encode(c))
  {
    var r := ToSextets(Raw(c));
    assert |r| > 0;
    assert Encode(c)[0] == Letter(r[0]);
  }

  /** Different positions never share a token. */
  lemma EncodeInjective(c: Cursor, d: Cursor)
    requires Encodable(c) && Encodable(d) && Encode(c) == Encode(d)
    ensures c == d
  {
    CursorRoundTrip(c);
    CursorRoundTrip(d);
  }

  /** A token with a byte outside the alphabet is refused, whatever surrounds it, unless it is all blank. */
  lemma {:induction false} ForeignByteRefused(a: string, c: char, b: string)
    requires LetterValue(c) == None && c != '\r' && c != '\n' && !IsBlank(a + [c] + b)
    ensures DecodeCursor(a + [c] + b) == Err(BadEncoding)
  {
    ForeignByteNoValues(a, c, b);
  }

  lemma {:induction false} ForeignByteNoValues(a: string, c: char, b: string)
    requires LetterValue(c) == None && c != '\r' && c != '\n'
    ensures LetterValues(a + [c] + b) == None
  {
    var token := a + [c] + b;
    if a == "" {
      assert token[0] == c;
    } else {
      assert token[1..] == a[1..] + [c] + b;
      ForeignByteNoValues(a[1..], c, b);
    }
  }

  /** What is encoded is the instant's numeral, a bar, and the id. */
  lemma PayloadOf(c: Cursor)
    requires Encodable(c)
    ensures c.nanos >= 0 ==> Raw(c) == Digits(c.nanos) + "|" + c.id
    ensures c.nanos < 0 ==> Raw(c) == "-" + Digits(-c.nanos) + "|" + c.id
  {
  }
}
