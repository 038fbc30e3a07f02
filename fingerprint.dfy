/**
 * The visitor fingerprint of `generateVisitorId`: a client address and a user
 * agent picked from three request headers, joined with "-", folded into a
 * signed 32-bit integer by the `31 * h + c` rolling hash over the UTF-16 code
 * units of the joined text, and rendered in decimal.
 */
module Fingerprint {
  import opened Wrappers
  import NumberText

  /** The three request headers the fingerprint reads; `None` is a header that is absent. */
  datatype Headers = Headers(forwardedFor: Option<string>, realIp: Option<string>, userAgent: Option<string>)

  const Unknown: string := "unknown"

  /** A header value JavaScript treats as true in `||` and `?:`: present and not empty. */
  predicate Truthy(v: Option<string>) {
    v.Some? && v.value != ""
  }

  /** `s.split(',')[0]`: the text before the first comma, or all of `s` when it has none. */
  function BeforeFirstComma(s: string): (r: string)
    ensures r <= s
    ensures ',' !in r
    ensures |r| < |s| ==> s[|r|] == ','
  {
    if s == [] || s[0] == ',' then [] else [s[0]] + BeforeFirstComma(s[1..])
  }

  /** The client address: first entry of x-forwarded-for, else x-real-ip, else "unknown". */
  function ClientAddress(h: Headers): (ip: string)
    ensures Truthy(h.forwardedFor) ==> ip == BeforeFirstComma(h.forwardedFor.value)
    ensures !Truthy(h.forwardedFor) && Truthy(h.realIp) ==> ip == h.realIp.value
    ensures !Truthy(h.forwardedFor) && !Truthy(h.realIp) ==> ip == Unknown
  {
    if Truthy(h.forwardedFor) then BeforeFirstComma(h.forwardedFor.value)
    else if Truthy(h.realIp) then h.realIp.value
    else Unknown
  }

  /** The user agent, "unknown" when missing or empty; never empty itself. */
  function UserAgent(h: Headers): (ua: string)
    ensures ua != ""
    ensures Truthy(h.userAgent) ==> ua == h.userAgent.value
    ensures !Truthy(h.userAgent) ==> ua == Unknown
  {
    if Truthy(h.userAgent) then h.userAgent.value else Unknown
  }

  /** The text that is hashed: address and agent joined by "-". */
  function Combined(h: Headers): string {
    ClientAddress(h) + "-" + UserAgent(h)
  }

  predicate IsCodeUnit(u: int) {
    0 <= u < 0x1_0000
  }

  /** The UTF-16 code units of one character: one unit, or a surrogate pair above U+FFFF. */
  function CharUnits(c: char): (units: seq<int>)
    ensures 1 <= |units| <= 2
    ensures forall i :: 0 <= i < |units| ==> IsCodeUnit(units[i])
    ensures (c as int) < 0x1_0000 ==> units == [c as int]
  {
    var v := c as int;
    if v < 0x1_0000 then [v]
    else [0xD800 + (v - 0x1_0000) / 0x400, 0xDC00 + (v - 0x1_0000) % 0x400]
  }

  /** The sequence `charCodeAt(0), ..., charCodeAt(length - 1)` of a JavaScript string. */
  function Utf16(s: string): (units: seq<int>)
    ensures |s| <= |units| <= 2 * |s|
    ensures forall i :: 0 <= i < |units| ==> IsCodeUnit(units[i])
  {
    if s == [] then [] else CharUnits(s[0]) + Utf16(s[1..])
  }

  predicate InBmp(s: string) {
    forall i :: 0 <= i < |s| ==> (s[i] as int) < 0x1_0000
  }

  /** For text within the Basic Multilingual Plane, each character is one code unit with its own value. */
  lemma {:induction false} Utf16OfBmp(s: string)
    requires InBmp(s)
    ensures |Utf16(s)| == |s|
    ensures forall i :: 0 <= i < |s| ==> Utf16(s)[i] == s[i] as int
  {
    if s != [] {
      Utf16OfBmp(s[1..]);
      assert Utf16(s) == [s[0] as int] + Utf16(s[1..]);
    }
  }

  const TwoTo31: int := 0x8000_0000
  const TwoTo32: int := 0x1_0000_0000

  predicate IsInt32(x: int) {
    -TwoTo31 <= x < TwoTo31
  }

  /** ECMAScript ToInt32 of an integral number: the signed 32-bit value congruent to `x` modulo 2^32. */
  function Wrap32(x: int): (r: int)
    ensures IsInt32(r)
    ensures (r - x) % TwoTo32 == 0
  {
    (x + TwoTo31) % TwoTo32 - TwoTo31
  }

  /** One pass of the loop body as written: `hash = (hash << 5) - hash + char; hash = hash & hash`. */
  function ShiftStep(h: int, c: int): int {
    Wrap32(Wrap32(h * 32) - h + c)
  }

  /** The same step in the form of Java's `String.hashCode`. */
  function HashStep(h: int, c: int): int {
    Wrap32(31 * h + c)
  }

  /** The hash of a code-unit sequence: 0 for no units, then one step per unit from the left. */
  function HashOf(units: seq<int>): (h: int)
    ensures IsInt32(h)
  {
    if units == [] then 0 else HashStep(HashOf(units[..|units| - 1]), units[|units| - 1])
  }

  /** The fingerprint of a request. */
  function VisitorId(h: Headers): string {
    NumberText.Decimal(HashOf(Utf16(Combined(h))))
  }

  // ---------------------------------------------------------------------------
  // Arithmetic modulo 2^32

  /** Two values that ToInt32 sends to the same result differ by a multiple of 2^32, and conversely. */
  lemma Wrap32SameIff(x: int, y: int)
    ensures Wrap32(x) == Wrap32(y) <==> (x - y) % TwoTo32 == 0
  {
    var rx, ry := Wrap32(x), Wrap32(y);
    var kx, ky := (rx - x) / TwoTo32, (ry - y) / TwoTo32;
    assert rx - x == TwoTo32 * kx;
    assert ry - y == TwoTo32 * ky;
    if (x - y) % TwoTo32 == 0 {
      var k := (x - y) / TwoTo32;
      assert x - y == TwoTo32 * k;
      assert rx - ry == TwoTo32 * (kx - ky + k);
    }
    if rx == ry {
      assert x - y == TwoTo32 * (ky - kx);
    }
  }

  /** The shift-and-subtract step of the source computes exactly `wrap32(31 * h + c)`. */
  lemma ShiftStepIsHashStep(h: int, c: int)
    ensures ShiftStep(h, c) == HashStep(h, c)
  {
    var w := Wrap32(h * 32);
    var k := (w - h * 32) / TwoTo32;
    assert w - h * 32 == TwoTo32 * k;
    assert (w - h + c) - (31 * h + c) == TwoTo32 * k;
    Wrap32SameIff(w - h + c, 31 * h + c);
  }

  /** One more unit of a prefix is one more shift step on the prefix's hash. */
  lemma HashOfNextPrefix(units: seq<int>, i: nat)
    requires i < |units|
    ensures HashOf(units[..i + 1]) == ShiftStep(HashOf(units[..i]), units[i])
  {
    ShiftStepIsHashStep(HashOf(units[..i]), units[i]);
    assert units[..i + 1][..i] == units[..i];
  }

  /** 2^32 divides `31 * d` only when it divides `d`: 31 has the inverse 3186588639 modulo 2^32. */
  lemma OddFactorCancels(d: int)
    requires (31 * d) % TwoTo32 == 0
    ensures d % TwoTo32 == 0
  {
    var k := (31 * d) / TwoTo32;
    assert 31 * d == TwoTo32 * k;
    assert 3186588639 * 31 == 1 + 23 * TwoTo32;
    calc {
      d;
      == (3186588639 * 31 - 23 * TwoTo32) * d;
      == 3186588639 * (31 * d) - 23 * TwoTo32 * d;
      == 3186588639 * (TwoTo32 * k) - 23 * TwoTo32 * d;
      == TwoTo32 * (3186588639 * k - 23 * d);
    }
  }

  /** A step with the same code unit keeps distinct 32-bit hashes distinct. */
  lemma HashStepInjectiveInHash(h1: int, h2: int, c: int)
    requires IsInt32(h1) && IsInt32(h2)
    requires HashStep(h1, c) == HashStep(h2, c)
    ensures h1 == h2
  {
    Wrap32SameIff(31 * h1 + c, 31 * h2 + c);
    assert 31 * (h1 - h2) == (31 * h1 + c) - (31 * h2 + c);
    OddFactorCancels(h1 - h2);
    var q := (h1 - h2) / TwoTo32;
    assert h1 - h2 == TwoTo32 * q;
  }

  /** A step from the same hash with distinct code units gives distinct hashes. */
  lemma HashStepInjectiveInUnit(h: int, c1: int, c2: int)
    requires IsCodeUnit(c1) && IsCodeUnit(c2)
    requires HashStep(h, c1) == HashStep(h, c2)
    ensures c1 == c2
  {
    Wrap32SameIff(31 * h + c1, 31 * h + c2);
    var q := (c1 - c2) / TwoTo32;
    assert c1 - c2 == TwoTo32 * q;
  }

  predicate DifferOnlyAt(a: seq<int>, b: seq<int>, k: nat) {
    |a| == |b| && k < |a| && a[k] != b[k] &&
    forall i :: 0 <= i < |a| && i != k ==> a[i] == b[i]
  }

  /**
   * Two code-unit sequences of one length that differ in exactly one position
   * hash differently: the hash never collides on a single substituted unit.
   */
  lemma {:induction false} SingleSubstitutionChangesHash(a: seq<int>, b: seq<int>, k: nat)
    requires DifferOnlyAt(a, b, k)
    requires forall i :: 0 <= i < |a| ==> IsCodeUnit(a[i]) && IsCodeUnit(b[i])
    ensures HashOf(a) != HashOf(b)
    decreases |a|
  {
    var n := |a|;
    var pa, pb := a[..n - 1], b[..n - 1];
    if k == n - 1 {
      assert pa == pb;
      if HashOf(a) == HashOf(b) {
        HashStepInjectiveInUnit(HashOf(pa), a[n - 1], b[n - 1]);
      }
    } else {
      assert DifferOnlyAt(pa, pb, k);
      SingleSubstitutionChangesHash(pa, pb, k);
      assert a[n - 1] == b[n - 1];
      if HashOf(a) == HashOf(b) {
        HashStepInjectiveInHash(HashOf(pa), HashOf(pb), a[n - 1]);
      }
    }
  }

  // ---------------------------------------------------------------------------
  // Properties of the fingerprint

  /** The fingerprint is the decimal text of a signed 32-bit integer: it reads back as the hash. */
  lemma VisitorIdIsInt32Text(h: Headers)
    ensures NumberText.ParseDecimal(VisitorId(h)) == Some(HashOf(Utf16(Combined(h))))
    ensures IsInt32(HashOf(Utf16(Combined(h))))
  {
    NumberText.DecimalRoundTrip(HashOf(Utf16(Combined(h))));
  }

  /**
   * Two requests whose joined address-and-agent texts lie in the Basic
   * Multilingual Plane, have one length and differ in a single character get
   * different fingerprints (for instance two addresses differing in the last digit).
   */
  lemma SingleCharacterChangeSeparates(h1: Headers, h2: Headers, k: nat)
    requires InBmp(Combined(h1)) && InBmp(Combined(h2))
    requires |Combined(h1)| == |Combined(h2)| && k < |Combined(h1)|
    requires Combined(h1)[k] != Combined(h2)[k]
    requires forall i :: 0 <= i < |Combined(h1)| && i != k ==> Combined(h1)[i] == Combined(h2)[i]
    ensures VisitorId(h1) != VisitorId(h2)
  {
    var s1, s2 := Combined(h1), Combined(h2);
    var a, b := Utf16(s1), Utf16(s2);
    Utf16OfBmp(s1);
    Utf16OfBmp(s2);
    assert DifferOnlyAt(a, b, k);
    SingleSubstitutionChangesHash(a, b, k);
    NumberText.DecimalInjective(HashOf(a), HashOf(b));
  }
}
