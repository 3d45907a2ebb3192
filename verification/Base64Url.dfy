/**
 The base64url printer of `pkce.ts` and the JWT segment parser of `jwt-utils.ts`.
 `btoa` follows section 4 of RFC 4648; `atob` follows the forgiving-base64 decode of the
 WHATWG Infra Standard, which accepts what section 4 prints.
 */
module Base64Url {
  import opened Common

  type Byte = n: nat | n < 256
  type Sextet = n: nat | n < 64

  // ---- Table 1 of RFC 4648 ----

  function Letter(n: Sextet): char {
    if n < 26 then 'A' + n as char
    else if n < 52 then 'a' + (n - 26) as char
    else if n < 62 then '0' + (n - 52) as char
    else if n == 62 then '+' else '/'
  }

  function ValueOf(c: char): Option<Sextet> {
    if 'A' <= c <= 'Z' then Some((c - 'A') as int)
    else if 'a' <= c <= 'z' then Some((c - 'a') as int + 26)
    else if '0' <= c <= '9' then Some((c - '0') as int + 52)
    else if c == '+' then Some(62)
    else if c == '/' then Some(63)
    else None
  }

  // ---- btoa ----

  function FirstSextet(p: Byte): Sextet { p / 4 }
  function SecondSextet(p: Byte, q: Byte): Sextet { p % 4 * 16 + q / 16 }
  function ThirdSextet(q: Byte, r: Byte): Sextet { q % 16 * 4 + r / 64 }
  function FourthSextet(r: Byte): Sextet { r % 64 }

  function FirstByte(s: Sextet, t: Sextet): Byte { s * 4 + t / 16 }
  function SecondByte(t: Sextet, u: Sextet): Byte { t % 16 * 16 + u / 4 }
  function ThirdByte(u: Sextet, v: Sextet): Byte { u % 4 * 64 + v }

  /** Three bytes in four sextets; a last group of one or two bytes in two or three. */
  function EncodeBits(b: seq<Byte>): seq<Sextet> {
    if |b| == 0 then []
    else if |b| == 1 then [FirstSextet(b[0]), SecondSextet(b[0], 0)]
    else if |b| == 2 then [FirstSextet(b[0]), SecondSextet(b[0], b[1]), ThirdSextet(b[1], 0)]
    else
      [FirstSextet(b[0]), SecondSextet(b[0], b[1]), ThirdSextet(b[1], b[2]), FourthSextet(b[2])] + EncodeBits(b[3..])
  }

  function Btoa(b: seq<Byte>): string {
    if |b| == 0 then ""
    else if |b| == 1 then [Letter(FirstSextet(b[0])), Letter(SecondSextet(b[0], 0)), '=', '=']
    else if |b| == 2 then
      [Letter(FirstSextet(b[0])), Letter(SecondSextet(b[0], b[1])), Letter(ThirdSextet(b[1], 0)), '=']
    else
      [Letter(FirstSextet(b[0])), Letter(SecondSextet(b[0], b[1])),
       Letter(ThirdSextet(b[1], b[2])), Letter(FourthSextet(b[2]))] + Btoa(b[3..])
  }

  // ---- atob ----

  function Sextets(s: string): Option<seq<Sextet>> {
    if s == "" then Some([])
    else
      var rest := Sextets(s[..|s| - 1]);
      var v := ValueOf(s[|s| - 1]);
      if rest.Some? && v.Some? then Some(rest.value + [v.value]) else None
  }

  /** Left-over bits of a last group of two or three sextets are discarded. */
  function DecodeBits(s: seq<Sextet>): seq<Byte>
    requires |s| % 4 != 1
  {
    if |s| == 0 then []
    else if |s| == 2 then [FirstByte(s[0], s[1])]
    else if |s| == 3 then [FirstByte(s[0], s[1]), SecondByte(s[1], s[2])]
    else [FirstByte(s[0], s[1]), SecondByte(s[1], s[2]), ThirdByte(s[2], s[3])] + DecodeBits(s[4..])
  }

  predicate Space(c: char) {
    c == ' ' || c == '\t' || c == '\n' || c == '\r' || c == 12 as char
  }

  function WithoutSpaces(s: string): string {
    if s == "" then ""
    else
      var rest := WithoutSpaces(s[..|s| - 1]);
      if Space(s[|s| - 1]) then rest else rest + [s[|s| - 1]]
  }

  /** At most two trailing `=`, and only from a length that is a multiple of four. */
  function DropPadding(s: string): string {
    var n := |s|;
    if n == 0 || n % 4 != 0 || s[n - 1] != '=' then s
    else if s[n - 2] == '=' then s[..n - 2]
    else s[..n - 1]
  }

  function Atob(text: string): Option<seq<Byte>> {
    var s := DropPadding(WithoutSpaces(text));
    if |s| % 4 == 1 then None
    else
      match Sextets(s)
      case None => None
      case Some(x) => if |x| % 4 == 1 then None else Some(DecodeBits(x))
  }

  // ---- pkce.ts ----

  function Replace(s: string, a: char, b: char): (r: string)
    ensures |r| == |s|
    ensures forall i :: 0 <= i < |s| ==> r[i] == if s[i] == a then b else s[i]
  {
    seq(|s|, i requires 0 <= i < |s| => if s[i] == a then b else s[i])
  }

  /** `.replace(/=+$/, '')`. */
  function StripPadding(s: string): string {
    if s != "" && s[|s| - 1] == '=' then StripPadding(s[..|s| - 1]) else s
  }

  function UrlEncode(b: seq<Byte>): string {
    StripPadding(Replace(Replace(Btoa(b), '+', '-'), '/', '_'))
  }

  /** The bytes of a binary string, or `None` where `btoa` throws. */
  function BinaryBytes(s: string): Option<seq<Byte>> {
    if exists i :: 0 <= i < |s| && s[i] as int >= 256 then None
    else Some(seq(|s|, i requires 0 <= i < |s| => s[i] as int))
  }

  method Base64UrlEncode(bytes: seq<Byte>) returns (r: string)
    ensures r == UrlEncode(bytes)
  {
    var binary := "";
    var i := 0;
    while i < |bytes|
      invariant 0 <= i <= |bytes| && |binary| == i
      invariant forall j :: 0 <= j < i ==> binary[j] as int == bytes[j]
    {
      binary := binary + [bytes[i] as char];
      i := i + 1;
    }
    var decoded := BinaryBytes(binary);
    assert decoded.value == bytes;
    r := StripPadding(Replace(Replace(Btoa(decoded.value), '+', '-'), '/', '_'));
  }

  // ---- jwt-utils.ts ----

  /** `s.split(sep)`. */
  function Split(s: string, sep: char): (r: seq<string>)
    ensures |r| >= 1
  {
    if s == "" then [""]
    else
      var rest := Split(s[1..], sep);
      if s[0] == sep then [""] + rest else [[s[0]] + rest[0]] + rest[1..]
  }

  function Repeat(c: char, n: nat): (r: string)
    ensures |r| == n
    ensures forall i :: 0 <= i < n ==> r[i] == c
  {
    seq(n, _ => c)
  }

  function Padded(segment: string): string {
    var base64 := Replace(Replace(segment, '-', '+'), '_', '/');
    base64 + Repeat('=', (4 - |base64| % 4) % 4)
  }

  datatype Parsed = InvalidFormat | Undecodable | Payload(bytes: seq<Byte>)

  /** `parseJwt` up to, and not including, `JSON.parse`. */
  function ParseJwt(token: string): Parsed {
    var parts := Split(token, '.');
    if |parts| != 3 then InvalidFormat
    else
      match Atob(Padded(parts[1]))
      case None => Undecodable
      case Some(bytes) => Payload(bytes)
  }

  // ---- The printer, letter by letter ----

  predicate UrlSafe(c: char) {
    'A' <= c <= 'Z' || 'a' <= c <= 'z' || '0' <= c <= '9' || c == '-' || c == '_'
  }

  /** Table 2 of RFC 4648. */
  function UrlLetter(n: Sextet): (c: char)
    ensures UrlSafe(c)
  {
    if n <= 25 then ('A' as int + n) as char
    else if n <= 51 then ('a' as int + (n - 26)) as char
    else if n <= 61 then ('0' as int + (n - 52)) as char
    else if n == 62 then '-'
    else '_'
  }

  function UrlText(s: seq<Sextet>): (r: string)
    ensures |r| == |s|
    ensures forall i :: 0 <= i < |s| ==> r[i] == UrlLetter(s[i])
  {
    seq(|s|, i requires 0 <= i < |s| => UrlLetter(s[i]))
  }

  function PaddingFor(n: nat): nat {
    (4 - n % 4) % 4
  }

  lemma {:induction false} EncodeLength(b: seq<Byte>)
    ensures |EncodeBits(b)| == 4 * (|b| / 3) + (if |b| % 3 == 0 then 0 else |b| % 3 + 1)
    ensures |EncodeBits(b)| % 4 != 1
  {
    if |b| >= 3 {
      EncodeLength(b[3..]);
    }
  }

  function ThreeBytes(p: int, q: int, r: int): int {
    65536 * p + 256 * q + r
  }

  function FourSextets(s: int, t: int, u: int, v: int): int {
    262144 * s + 4096 * t + 64 * u + v
  }

  /**
   Each whole group of three bytes is the same 24-bit number as its four sextets, most significant first; a
   last group of one or two bytes is so with zero bytes, and a zero sextet for each, after it.
   */
  lemma {:induction false} SextetsAreTheBits(b: seq<Byte>, g: nat)
    requires 3 * g < |b|
    ensures var x, n := EncodeBits(b), |b| - 3 * g;
      && |x| >= 4 * g + (if n >= 3 then 4 else n + 1)
      && FourSextets(x[4 * g], x[4 * g + 1], if n >= 2 then x[4 * g + 2] else 0, if n >= 3 then x[4 * g + 3] else 0)
         == ThreeBytes(b[3 * g], if n >= 2 then b[3 * g + 1] else 0, if n >= 3 then b[3 * g + 2] else 0)
  {
    if g > 0 {
      SextetsAreTheBits(b[3..], g - 1);
    }
  }

  /** `btoa` prints the sextets and pads to a multiple of four. */
  lemma {:induction false} BtoaText(b: seq<Byte>)
    ensures |Btoa(b)| == |EncodeBits(b)| + PaddingFor(|EncodeBits(b)|)
    ensures forall i :: 0 <= i < |Btoa(b)| ==>
      Btoa(b)[i] == if i < |EncodeBits(b)| then Letter(EncodeBits(b)[i]) else '='
  {
    hide Letter, FirstSextet, SecondSextet, ThirdSextet, FourthSextet;
    if |b| >= 3 {
      BtoaText(b[3..]);
    }
  }

  lemma {:induction false} StripExactly(s: string, n: nat)
    requires n <= |s| && (n > 0 ==> s[n - 1] != '=')
    requires forall i :: n <= i < |s| ==> s[i] == '='
    ensures StripPadding(s) == s[..n]
    decreases |s|
  {
    if n < |s| {
      StripExactly(s[..|s| - 1], n);
      assert s[..|s| - 1][..n] == s[..n];
    } else {
      assert s[..n] == s;
    }
  }

  /**
   The printed text is exactly the letters of table 2 of RFC 4648 for the sextets: all padding is gone, and
   nothing else.
   */
  lemma UrlEncodeText(b: seq<Byte>)
    ensures UrlEncode(b) == UrlText(EncodeBits(b))
  {
    hide Btoa, EncodeBits;
    BtoaText(b);
    var bits, t := EncodeBits(b), Replace(Replace(Btoa(b), '+', '-'), '/', '_');
    forall i | 0 <= i < |bits| ensures t[i] == UrlLetter(bits[i]) && t[i] != '=' {
      assert Btoa(b)[i] == Letter(bits[i]);
    }
    StripExactly(t, |bits|);
    assert t[..|bits|] == UrlText(bits);
  }

  /** Test vectors of section 10 of RFC 4648, and one with the two letters that table 2 replaces. */
  lemma PrintsVectors()
    ensures UrlEncode([]) == "" && UrlEncode([102]) == "Zg" && UrlEncode([102, 111]) == "Zm8"
    ensures UrlEncode([102, 111, 111]) == "Zm9v" && UrlEncode([251, 255]) == "-_8"
  {
    hide UrlEncode, Letter;
    UrlEncodeText([]);
    UrlEncodeText([102]);
    assert EncodeBits([102]) == [25, 32] && UrlText([25, 32]) == "Zg";
    UrlEncodeText([102, 111]);
    assert EncodeBits([102, 111]) == [25, 38, 60] && UrlText([25, 38, 60]) == "Zm8";
    UrlEncodeText([102, 111, 111]);
    assert EncodeBits([102, 111, 111]) == [25, 38, 61, 47] && UrlText([25, 38, 61, 47]) == "Zm9v";
    UrlEncodeText([251, 255]);
    assert EncodeBits([251, 255]) == [62, 63, 60] && UrlText([62, 63, 60]) == "-_8";
  }

  /** Length and alphabet: 4 characters for 3 bytes, then 0, 2 or 3 more, never 1 mod 4, all URL-safe. */
  lemma UrlEncodeShape(b: seq<Byte>)
    ensures |UrlEncode(b)| == 4 * (|b| / 3) + (if |b| % 3 == 0 then 0 else |b| % 3 + 1)
    ensures |UrlEncode(b)| % 4 != 1
    ensures forall i :: 0 <= i < |UrlEncode(b)| ==> UrlSafe(UrlEncode(b)[i])
  {
    UrlEncodeText(b);
    EncodeLength(b);
  }

  // ---- The parser on URL-safe text ----

  /** The sextets a URL-safe text stands for. */
  function UrlValue(c: char): (n: Sextet)
    requires UrlSafe(c)
    ensures UrlLetter(n) == c
  {
    if c == '-' then 62 else if c == '_' then 63 else ValueOf(c).value
  }

  function UrlSextets(p: string): (r: seq<Sextet>)
    requires forall i :: 0 <= i < |p| ==> UrlSafe(p[i])
    ensures |r| == |p|
    ensures UrlText(r) == p
  {
    seq(|p|, i requires 0 <= i < |p| => UrlValue(p[i]))
  }

  lemma {:induction false} NoSpaces(s: string)
    requires forall i :: 0 <= i < |s| ==> !Space(s[i])
    ensures WithoutSpaces(s) == s
  {
    if s != "" {
      NoSpaces(s[..|s| - 1]);
    }
  }

  lemma {:induction false} SextetsOf(s: string, x: seq<Sextet>)
    requires |s| == |x| && forall i :: 0 <= i < |s| ==> ValueOf(s[i]) == Some(x[i])
    ensures Sextets(s) == Some(x)
  {
    if s != "" {
      SextetsOf(s[..|s| - 1], x[..|x| - 1]);
      assert x == x[..|x| - 1] + [x[|x| - 1]];
    }
  }

  lemma TranslateBack(n: Sextet)
    ensures var c := UrlLetter(n);
      var d := if c == '-' then '+' else c;
      ValueOf(if d == '_' then '/' else d) == Some(n)
  {
  }

  /** The padding recomputed from the length is dropped again, leaving the letters. */
  lemma DropsWhatPaddedAdds(s: string)
    requires |s| % 4 != 1 && forall i :: 0 <= i < |s| ==> s[i] != '='
    ensures DropPadding(s + Repeat('=', PaddingFor(|s|))) == s
  {
    var k := PaddingFor(|s|);
    var t := s + Repeat('=', k);
    assert k <= 2 && |t| == |s| + k;
    if k == 0 {
      assert t == s;
    } else if k == 1 {
      assert t[|t| - 1] == '=' && t[|t| - 2] == s[|s| - 1];
      assert t[..|t| - 1] == s;
    } else {
      assert t[|t| - 1] == '=' && t[|t| - 2] == '=';
      assert t[..|t| - 2] == s;
    }
  }

  /** Translating and padding a print restores `btoa`'s output: what is recomputed is what was stripped. */
  lemma PaddedUndoesPrint(b: seq<Byte>)
    ensures Padded(UrlEncode(b)) == Btoa(b)
  {
    hide Btoa, EncodeBits, UrlEncode, Letter;
    BtoaText(b);
    UrlEncodeText(b);
    var bits := EncodeBits(b);
    var base64 := Replace(Replace(UrlText(bits), '-', '+'), '_', '/');
    forall i | 0 <= i < |bits| ensures base64[i] == Letter(bits[i]) {
      TranslateLetter(bits[i]);
    }
  }

  lemma TranslateLetter(n: Sextet)
    ensures var c := UrlLetter(n);
      var d := if c == '-' then '+' else c;
      (if d == '_' then '/' else d) == Letter(n)
  {
  }

  /** The parser decodes a URL-safe segment of sextets `x` to their bytes. */
  lemma SegmentDecodes(x: seq<Sextet>)
    requires |x| % 4 != 1
    ensures Atob(Padded(UrlText(x))) == Some(DecodeBits(x))
  {
    var base64 := Replace(Replace(UrlText(x), '-', '+'), '_', '/');
    forall i | 0 <= i < |x| ensures ValueOf(base64[i]) == Some(x[i]) {
      TranslateBack(x[i]);
    }
    var padded := Padded(UrlText(x));
    assert padded == base64 + Repeat('=', PaddingFor(|base64|));
    NoSpaces(padded);
    DropsWhatPaddedAdds(base64);
    SextetsOf(base64, x);
  }

  lemma {:induction false} DecodeEncode(b: seq<Byte>)
    ensures |EncodeBits(b)| % 4 != 1
    ensures DecodeBits(EncodeBits(b)) == b
  {
    hide FirstSextet, SecondSextet, ThirdSextet, FourthSextet, FirstByte, SecondByte, ThirdByte;
    EncodeLength(b);
    if |b| >= 3 {
      DecodeEncode(b[3..]);
      GroupRoundTrip(b[0], b[1], b[2]);
      assert EncodeBits(b)[4..] == EncodeBits(b[3..]);
      assert b == b[..3] + b[3..];
    } else if |b| == 2 {
      GroupRoundTrip(b[0], b[1], 0);
    } else if |b| == 1 {
      GroupRoundTrip(b[0], 0, 0);
    }
  }

  lemma GroupRoundTrip(p: Byte, q: Byte, r: Byte)
    ensures FirstByte(FirstSextet(p), SecondSextet(p, q)) == p
    ensures SecondByte(SecondSextet(p, q), ThirdSextet(q, r)) == q
    ensures ThirdByte(ThirdSextet(q, r), FourthSextet(r)) == r
  {
  }

  // ---- Round trip through a token ----

  lemma {:induction false} SplitFirst(a: string, sep: char, rest: string)
    requires sep !in a
    ensures Split(a + [sep] + rest, sep) == [a] + Split(rest, sep)
  {
    var s := a + [sep] + rest;
    if a == "" {
      assert s == [sep] + rest && s[1..] == rest;
    } else {
      SplitFirst(a[1..], sep, rest);
      assert s[1..] == a[1..] + [sep] + rest && s[0] == a[0];
      assert Split(s[1..], sep) == [a[1..]] + Split(rest, sep);
      assert Split(s[1..], sep)[1..] == Split(rest, sep);
      assert [a[0]] + a[1..] == a;
    }
  }

  lemma {:induction false} SplitNone(a: string, sep: char)
    requires sep !in a
    ensures Split(a, sep) == [a]
  {
    if a != "" {
      SplitNone(a[1..], sep);
      assert [a[0]] + a[1..] == a;
    }
  }

  lemma NoDot(b: seq<Byte>)
    ensures '.' !in UrlEncode(b)
  {
    UrlEncodeShape(b);
  }

  /** Three prints joined with dots. */
  function Token(h: seq<Byte>, b: seq<Byte>, s: seq<Byte>): string {
    UrlEncode(h) + "." + (UrlEncode(b) + "." + UrlEncode(s))
  }

  /** A token splits into exactly its three prints. */
  lemma TokenSplits(h: seq<Byte>, b: seq<Byte>, s: seq<Byte>)
    ensures Split(Token(h, b, s), '.') == [UrlEncode(h), UrlEncode(b), UrlEncode(s)]
  {
    hide UrlEncode, Split;
    NoDot(h);
    NoDot(b);
    NoDot(s);
    SplitFirst(UrlEncode(h), '.', UrlEncode(b) + "." + UrlEncode(s));
    SplitFirst(UrlEncode(b), '.', UrlEncode(s));
    SplitNone(UrlEncode(s), '.');
  }

  /** For all byte strings, the token made of their prints parses to the second. */
  lemma TokenRoundTrip(h: seq<Byte>, b: seq<Byte>, s: seq<Byte>)
    ensures ParseJwt(Token(h, b, s)) == Payload(b)
  {
    hide UrlEncode, Split, Token, EncodeBits, DecodeBits, Atob, Padded;
    TokenSplits(h, b, s);
    UrlEncodeText(b);
    DecodeEncode(b);
    SegmentDecodes(EncodeBits(b));
  }

  /** Different byte strings print differently. */
  lemma UrlEncodeInjective(a: seq<Byte>, b: seq<Byte>)
    requires UrlEncode(a) == UrlEncode(b)
    ensures a == b
  {
    hide ParseJwt, UrlEncode;
    TokenRoundTrip([], a, []);
    TokenRoundTrip([], b, []);
  }

  // ---- The other direction ----

  /** The bits a last, incomplete group leaves over are zero (section 3.5 of RFC 4648). */
  predicate CanonicalTail(x: seq<Sextet>) {
    (|x| % 4 == 2 ==> x[|x| - 1] % 16 == 0) && (|x| % 4 == 3 ==> x[|x| - 1] % 4 == 0)
  }

  lemma PrefixCancels<T>(p: seq<T>, a: seq<T>, b: seq<T>)
    ensures p + a == p + b <==> a == b
  {
    assert (p + a)[|p|..] == a && (p + b)[|p|..] == b;
  }

  /** The first group of four comes back, and the rest is printed after it. */
  lemma QuadFirst(x: seq<Sextet>)
    requires |x| >= 4 && |x| % 4 != 1
    ensures EncodeBits(DecodeBits(x)) == x[..4] + EncodeBits(DecodeBits(x[4..]))
  {
    hide FirstSextet, SecondSextet, ThirdSextet, FourthSextet, FirstByte, SecondByte, ThirdByte;
    QuadRoundTrip(x[0], x[1], x[2], x[3]);
    assert DecodeBits(x)[3..] == DecodeBits(x[4..]);
  }

  lemma TailReprints(x: seq<Sextet>)
    requires |x| < 4 && |x| != 1
    ensures |EncodeBits(DecodeBits(x))| == |x|
    ensures EncodeBits(DecodeBits(x)) == x <==> CanonicalTail(x)
  {
    hide FirstSextet, SecondSextet, ThirdSextet, FourthSextet, FirstByte, SecondByte, ThirdByte;
    var d := DecodeBits(x);
    if |x| == 2 {
      QuadRoundTrip(x[0], x[1], 0, 0);
      assert EncodeBits(d) == [FirstSextet(d[0]), SecondSextet(d[0], 0)];
    } else if |x| == 3 {
      QuadRoundTrip(x[0], x[1], x[2], 0);
      assert EncodeBits(d) == [FirstSextet(d[0]), SecondSextet(d[0], d[1]), ThirdSextet(d[1], 0)];
    }
  }

  lemma {:induction false} EncodeDecode(x: seq<Sextet>)
    requires |x| % 4 != 1
    ensures |EncodeBits(DecodeBits(x))| == |x|
    ensures EncodeBits(DecodeBits(x)) == x <==> CanonicalTail(x)
  {
    hide EncodeBits, DecodeBits;
    if |x| < 4 {
      TailReprints(x);
    } else {
      EncodeDecode(x[4..]);
      QuadFirst(x);
      assert x == x[..4] + x[4..];
      PrefixCancels(x[..4], EncodeBits(DecodeBits(x[4..])), x[4..]);
    }
  }

  lemma QuadRoundTrip(s: Sextet, t: Sextet, u: Sextet, v: Sextet)
    ensures FirstSextet(FirstByte(s, t)) == s
    ensures SecondSextet(FirstByte(s, t), SecondByte(t, u)) == t
    ensures ThirdSextet(SecondByte(t, u), ThirdByte(u, v)) == u
    ensures FourthSextet(ThirdByte(u, v)) == v
    ensures SecondSextet(FirstByte(s, t), 0) == t <==> t % 16 == 0
    ensures ThirdSextet(SecondByte(t, u), 0) == u <==> u % 4 == 0
  {
  }

  lemma UrlTextInjective(x: seq<Sextet>, y: seq<Sextet>)
    ensures UrlText(x) == UrlText(y) <==> x == y
  {
    if UrlText(x) == UrlText(y) {
      assert |x| == |UrlText(x)| == |y|;
      forall i | 0 <= i < |x| ensures x[i] == y[i] {
        assert UrlText(x)[i] == UrlText(y)[i];
        TranslateBack(x[i]);
        TranslateBack(y[i]);
      }
    }
  }

  /**
   A URL-safe segment decodes exactly when its length is not 1 mod 4, and printing the result gives
   the segment back exactly when its left-over bits are zero.
   */
  lemma SegmentReprints(p: string)
    requires forall i :: 0 <= i < |p| ==> UrlSafe(p[i])
    ensures Atob(Padded(p)).Some? <==> |p| % 4 != 1
    ensures |p| % 4 != 1 ==> (UrlEncode(Atob(Padded(p)).value) == p <==> CanonicalTail(UrlSextets(p)))
  {
    var x := UrlSextets(p);
    if |p| % 4 == 1 {
      LengthOneModFour(p);
    } else {
      SegmentDecodes(x);
      EncodeDecode(x);
      UrlEncodeText(DecodeBits(x));
      UrlTextInjective(EncodeBits(DecodeBits(x)), x);
    }
  }

  lemma LengthOneModFour(p: string)
    requires forall i :: 0 <= i < |p| ==> !Space(p[i])
    requires |p| % 4 == 1
    ensures Atob(Padded(p)).None?
  {
    var base64 := Replace(Replace(p, '-', '+'), '_', '/');
    assert Padded(p) == base64 + "===";
    NoSpaces(base64 + "===");
    DropsTwoOfThree(base64);
    EqualsIsNoLetter(base64);
  }

  lemma DropsTwoOfThree(s: string)
    requires |s| % 4 == 1
    ensures DropPadding(s + "===") == s + "="
  {
    assert (s + "===")[..|s| + 1] == s + "=";
  }

  lemma EqualsIsNoLetter(s: string)
    ensures Sextets(s + "=").None?
  {
    assert (s + "=")[|s|] == '=' && ValueOf('=').None?;
  }

  // ---- Every token ----

  function Join(parts: seq<string>, sep: char): string {
    if parts == [] then "" else if |parts| == 1 then parts[0] else parts[0] + [sep] + Join(parts[1..], sep)
  }

  lemma JoinFirst(first: string, rest: seq<string>, sep: char)
    requires rest != []
    ensures Join([first] + rest, sep) == first + [sep] + Join(rest, sep)
  {
    assert ([first] + rest)[1..] == rest;
  }

  lemma JoinLonger(c: char, parts: seq<string>, sep: char)
    requires parts != []
    ensures Join([[c] + parts[0]] + parts[1..], sep) == [c] + Join(parts, sep)
  {
    var first, rest := [c] + parts[0], parts[1..];
    if rest == [] {
      assert [first] + rest == [first];
    } else {
      JoinFirst(first, rest, sep);
      assert first + [sep] + Join(rest, sep) == [c] + (parts[0] + [sep] + Join(rest, sep));
    }
  }

  /** Splitting loses nothing: joining the parts gives the text back. */
  lemma {:induction false} SplitJoins(s: string, sep: char)
    ensures Join(Split(s, sep), sep) == s
  {
    if s != "" {
      var rest := Split(s[1..], sep);
      SplitJoins(s[1..], sep);
      if s[0] == sep {
        JoinFirst("", rest, sep);
        assert s == "" + [sep] + s[1..];
      } else {
        JoinLonger(s[0], rest, sep);
        assert s == [s[0]] + s[1..];
      }
    }
  }

  /** No part has the separator, and there is one part more than separators. */
  lemma {:induction false} SplitCounts(s: string, sep: char)
    ensures forall i :: 0 <= i < |Split(s, sep)| ==> sep !in Split(s, sep)[i]
    ensures |Split(s, sep)| == multiset(s)[sep] + 1
  {
    if s != "" {
      SplitCounts(s[1..], sep);
      assert s == [s[0]] + s[1..];
    }
  }

  /** The characters of a segment that stand for a sextet: the URL-safe ones, and the two they replace. */
  predicate Readable(c: char) {
    UrlSafe(c) || c == '+' || c == '/'
  }

  lemma {:induction false} SextetsExist(s: string)
    ensures Sextets(s).Some? <==> forall i :: 0 <= i < |s| ==> ValueOf(s[i]).Some?
    ensures Sextets(s).Some? ==> |Sextets(s).value| == |s|
  {
    if s != "" {
      SextetsExist(s[..|s| - 1]);
    }
  }

  lemma ReadableHasValue(c: char)
    ensures var d := if c == '-' then '+' else c;
      ValueOf(if d == '_' then '/' else d).Some? <==> Readable(c)
  {
  }

  /** Without spaces and padding of its own, a segment decodes exactly when its length is not 1 mod 4 and all of it is readable. */
  lemma SegmentDecodesExactly(p: string)
    requires forall i :: 0 <= i < |p| ==> !Space(p[i]) && p[i] != '='
    ensures Atob(Padded(p)).Some? <==> |p| % 4 != 1 && forall i :: 0 <= i < |p| ==> Readable(p[i])
  {
    hide Space, Readable, ValueOf, UrlSafe;
    if |p| % 4 == 1 {
      LengthOneModFour(p);
    } else {
      var base64 := Replace(Replace(p, '-', '+'), '_', '/');
      var padded := Padded(p);
      assert padded == base64 + Repeat('=', PaddingFor(|base64|));
      SpacesStay();
      NoSpaces(padded);
      DropsWhatPaddedAdds(base64);
      SextetsExist(base64);
      forall i | 0 <= i < |p| ensures ValueOf(base64[i]).Some? <==> Readable(p[i]) {
        ReadableHasValue(p[i]);
      }
    }
  }

  lemma SpacesStay()
    ensures !Space('+') && !Space('/') && !Space('=')
  {
  }

  /**
   What the parser makes of any token: a format error exactly when it has not two dots, and else the decoding of
   what is between them, or an error exactly when that has length 1 mod 4 or something unreadable.
   */
  lemma ParsesExactly(token: string) returns (payload: string)
    ensures ParseJwt(token).InvalidFormat? <==> multiset(token)['.'] != 2
    ensures !ParseJwt(token).InvalidFormat? ==>
      exists h, s :: token == h + "." + (payload + "." + s) && '.' !in h && '.' !in payload && '.' !in s
    ensures !ParseJwt(token).InvalidFormat? && (forall i :: 0 <= i < |payload| ==> !Space(payload[i]) && payload[i] != '=') ==>
      (ParseJwt(token).Undecodable? <==> |payload| % 4 == 1 || exists i :: 0 <= i < |payload| && !Readable(payload[i]))
    ensures ParseJwt(token).Payload? ==> Atob(Padded(payload)) == Some(ParseJwt(token).bytes)
  {
    hide Split, Atob, Padded, Space, Readable;
    SplitJoins(token, '.');
    SplitCounts(token, '.');
    var parts := Split(token, '.');
    payload := "";
    if |parts| == 3 {
      payload := parts[1];
      assert parts == [parts[0]] + [payload, parts[2]] && [payload, parts[2]] == [payload] + [parts[2]];
      JoinFirst(parts[0], [payload, parts[2]], '.');
      JoinFirst(payload, [parts[2]], '.');
      assert token == parts[0] + "." + (payload + "." + parts[2]);
      if forall i :: 0 <= i < |payload| ==> !Space(payload[i]) && payload[i] != '=' {
        SegmentDecodesExactly(payload);
      }
    }
  }

  // ---- The code verifier ----

  /** The unreserved characters of section 4.1 of RFC 7636. */
  predicate Unreserved(c: char) {
    'A' <= c <= 'Z' || 'a' <= c <= 'z' || '0' <= c <= '9' || c == '-' || c == '.' || c == '_' || c == '~'
  }

  /** 32 random bytes, printed: always a valid verifier of 43 characters. */
  method GenerateCodeVerifier(random: seq<Byte>) returns (verifier: string)
    requires |random| == 32
    ensures verifier == UrlEncode(random)
    ensures |verifier| == 43 && forall i :: 0 <= i < |verifier| ==> Unreserved(verifier[i])
  {
    verifier := Base64UrlEncode(random);
    UrlEncodeShape(random);
  }
}
