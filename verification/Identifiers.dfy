/**
 Workspace identifiers. `str(uuid.UUID(...))` is always 36 characters of lower-case
 hexadecimal and hyphens, which is what makes the cache key `sub|uuid` unambiguous.
 */
module Identifiers {
  function Pow16(w: nat): (r: nat)
    ensures r >= 1
  {
    if w == 0 then 1 else 16 * Pow16(w - 1)
  }

  /** A UUID is a 128-bit number. */
  type Uuid = n: nat | n < Pow16(32)
    witness (assert Pow16(32) >= 1; 0)

  function HexDigit(n: nat): char
    requires n < 16
  {
    "0123456789abcdef"[n]
  }

  predicate LowerHex(c: char) {
    '0' <= c <= '9' || 'a' <= c <= 'f'
  }

  function DigitValue(c: char): int {
    if '0' <= c <= '9' then (c - '0') as int else 10 + c as int - 'a' as int
  }

  /** The number a text of hexadecimal digits is read as. */
  function HexValue(t: string): int {
    if t == "" then 0 else 16 * HexValue(t[..|t| - 1]) + DigitValue(t[|t| - 1])
  }

  /** `n` in exactly `w` lower-case hexadecimal digits. */
  function HexText(n: nat, w: nat): (t: string)
    requires n < Pow16(w)
    ensures |t| == w
    ensures '|' !in t
  {
    if w == 0 then "" else HexText(n / 16, w - 1) + [HexDigit(n % 16)]
  }

  lemma DigitReads(n: nat)
    requires n < 16
    ensures LowerHex(HexDigit(n)) && DigitValue(HexDigit(n)) == n
  {
  }

  lemma {:induction false} HexTextReads(n: nat, w: nat)
    requires n < Pow16(w)
    ensures HexValue(HexText(n, w)) == n
    ensures forall i :: 0 <= i < w ==> LowerHex(HexText(n, w)[i])
  {
    hide HexDigit, DigitValue, LowerHex;
    if w > 0 {
      HexTextReads(n / 16, w - 1);
      var t := HexText(n, w);
      assert t[..w - 1] == HexText(n / 16, w - 1) && t[w - 1] == HexDigit(n % 16);
      DigitReads(n % 16);
    }
  }

  /** 32 digits in groups of 8, 4, 4, 4 and 12. */
  function Hyphenated(h: string): (t: string)
    requires |h| == 32
    ensures |t| == 36
    ensures '|' !in h ==> '|' !in t
  {
    h[..8] + "-" + h[8..12] + "-" + h[12..16] + "-" + h[16..20] + "-" + h[20..]
  }

  lemma DigitAfterHyphens(h: string, i: nat)
    requires |h| == 32 && i < 32
    ensures Hyphenated(h)[i + (if i < 8 then 0 else if i < 12 then 1 else if i < 16 then 2 else if i < 20 then 3 else 4)] == h[i]
  {
  }

  /** The five groups of digits, without the hyphens. */
  function Digits(t: string): (h: string)
    requires |t| == 36
    ensures |h| == 32
  {
    t[..8] + t[9..13] + t[14..18] + t[19..23] + t[24..]
  }

  lemma DigitsOfHyphenated(h: string)
    requires |h| == 32
    ensures Digits(Hyphenated(h)) == h
  {
    forall i | 0 <= i < 32 ensures Digits(Hyphenated(h))[i] == h[i] {
      DigitAfterHyphens(h, i);
    }
  }

  /** `str(uuid.UUID(...))`. */
  function Canonical(u: Uuid): (t: string)
    ensures |t| == 36
    ensures '|' !in t
  {
    Hyphenated(HexText(u, 32))
  }

  /** The canonical text: lower-case digits in groups of 8, 4, 4, 4 and 12, which read as the UUID's number. */
  lemma CanonicalReads(u: Uuid)
    ensures var t := Canonical(u);
      && |t| == 36 && t[8] == t[13] == t[18] == t[23] == '-'
      && (forall i :: 0 <= i < 36 && i != 8 && i != 13 && i != 18 && i != 23 ==> LowerHex(t[i]))
      && HexValue(Digits(t)) == u
  {
    hide HexText, HexValue, Pow16, LowerHex;
    var h, t := HexText(u, 32), Canonical(u);
    HexTextReads(u, 32);
    DigitsOfHyphenated(h);
    forall i | 0 <= i < 36 && i != 8 && i != 13 && i != 18 && i != 23 ensures LowerHex(t[i]) {
      var j := i - if i < 8 then 0 else if i < 13 then 1 else if i < 18 then 2 else if i < 23 then 3 else 4;
      DigitAfterHyphens(h, j);
    }
  }

  /** The canonical text names one UUID. */
  lemma CanonicalInjective(u: Uuid, v: Uuid)
    requires Canonical(u) == Canonical(v)
    ensures u == v
  {
    CanonicalReads(u);
    CanonicalReads(v);
  }

  /** The key of the resolve cache and of the single-flight table. */
  function CacheKey(sub: string, workspace: Uuid): string {
    sub + "|" + Canonical(workspace)
  }

  /** Two callers share a cache key, `sub|uuid`, exactly when they are the same subject and workspace. */
  lemma CacheKeyInjective(sub: string, u: Uuid, other: string, v: Uuid)
    ensures |CacheKey(sub, u)| == |sub| + 37 && sub < CacheKey(sub, u) && CacheKey(sub, u)[|sub|] == '|'
    ensures CacheKey(sub, u) == CacheKey(other, v) <==> sub == other && u == v
  {
    var s, t := CacheKey(sub, u), CacheKey(other, v);
    assert s[|s| - 36..] == Canonical(u) && s[..|s| - 37] == sub;
    assert t[|t| - 36..] == Canonical(v) && t[..|t| - 37] == other;
    if s == t {
      CanonicalInjective(u, v);
    }
  }
}
