/** UUIDs as far as `UniqueEntityId` relies on Python's `uuid` module: the
    canonical text `str(uuid.UUID)` writes and the hexadecimal reading that
    `uuid.UUID(text)` performs. */
module Uuids {
  import opened Results

  function Pow16(k: nat): (p: nat)
    ensures p > 0
  {
    if k == 0 then 1 else 16 * Pow16(k - 1)
  }

  /** A UUID is a 128-bit number. */
  type Uuid = n: nat | n < Pow16(32)

  predicate IsHexDigit(c: char) {
    '0' <= c <= '9' || 'a' <= c <= 'f' || 'A' <= c <= 'F'
  }

  predicate IsLowerHexDigit(c: char) {
    '0' <= c <= '9' || 'a' <= c <= 'f'
  }

  predicate AllHex(s: string) {
    forall i :: 0 <= i < |s| ==> IsHexDigit(s[i])
  }

  predicate AllLowerHex(s: string) {
    forall i :: 0 <= i < |s| ==> IsLowerHexDigit(s[i])
  }

  function HexValue(c: char): (d: nat)
    requires IsHexDigit(c)
    ensures d < 16
  {
    if '0' <= c <= '9' then c as int - '0' as int
    else if 'a' <= c <= 'f' then c as int - 'a' as int + 10
    else c as int - 'A' as int + 10
  }

  function HexChar(d: nat): (c: char)
    requires d < 16
    ensures IsLowerHexDigit(c) && HexValue(c) == d
  {
    if d < 10 then ('0' as int + d) as char else ('a' as int + d - 10) as char
  }

  /** `n` as exactly `width` lowercase hex digits, zero-padded on the left. */
  function ToHex(n: nat, width: nat): (s: string)
    ensures |s| == width
    ensures forall i :: 0 <= i < |s| ==> IsLowerHexDigit(s[i])
  {
    if width == 0 then "" else ToHex(n / 16, width - 1) + [HexChar(n % 16)]
  }

  /** The number a string of hex digits denotes (`int(s, 16)` on plain digits). */
  function FromHex(s: string): (n: nat)
    requires AllHex(s)
    ensures n < Pow16(|s|)
  {
    if s == "" then 0 else 16 * FromHex(s[..|s| - 1]) + HexValue(s[|s| - 1])
  }

  lemma {:induction false} FromHexToHex(n: nat, width: nat)
    requires n < Pow16(width)
    ensures FromHex(ToHex(n, width)) == n
  {
    if width > 0 {
      var s := ToHex(n, width);
      assert s[..|s| - 1] == ToHex(n / 16, width - 1);
      FromHexToHex(n / 16, width - 1);
    }
  }

  /** `str(u)`: the 32 lowercase hex digits of `u`, grouped 8-4-4-4-12 by hyphens. */
  function Format(u: Uuid): (s: string)
    ensures |s| == 36
  {
    Group(ToHex(u, 32))
  }

  /** 32 digits grouped 8-4-4-4-12 by hyphens. */
  function Group(h: string): (s: string)
    requires |h| == 32
    ensures |s| == 36
  {
    Hyphenate(h[..8], Hyphenate(h[8..12], Hyphenate(h[12..16], Hyphenate(h[16..20], h[20..]))))
  }

  function Hyphenate(a: string, b: string): string {
    a + "-" + b
  }

  // --- What `uuid.UUID(text)` does to its argument -------------------------

  /** `s.replace(pattern, '')`: occurrences are removed left to right, without overlap. */
  function RemoveAll(s: string, pattern: string): (r: string)
    requires pattern != []
    ensures |r| <= |s|
    decreases |s|
  {
    if |s| < |pattern| then s
    else if s[..|pattern|] == pattern then RemoveAll(s[|pattern|..], pattern)
    else [s[0]] + RemoveAll(s[1..], pattern)
  }

  predicate IsBrace(c: char) {
    c == '{' || c == '}'
  }

  function StripLeadingBraces(s: string): (r: string)
    ensures |r| <= |s|
  {
    if s != [] && IsBrace(s[0]) then StripLeadingBraces(s[1..]) else s
  }

  function StripTrailingBraces(s: string): (r: string)
    ensures |r| <= |s|
  {
    if s != [] && IsBrace(s[|s| - 1]) then StripTrailingBraces(s[..|s| - 1]) else s
  }

  /** `s.strip('{}')`. */
  function StripBraces(s: string): (r: string)
    ensures |r| <= |s|
  {
    StripTrailingBraces(StripLeadingBraces(s))
  }

  /** What is left of `text` once `urn:`, `uuid:`, enclosing braces and
      hyphens are taken out, in that order. */
  function HexPart(text: string): (h: string)
    ensures |h| <= |text|
  {
    RemoveAll(StripBraces(RemoveAll(RemoveAll(text, "urn:"), "uuid:")), "-")
  }

  /** `uuid.UUID(text)` accepts `text`: exactly 32 hex digits are left. */
  predicate IsValid(text: string): (valid: bool)
    ensures valid ==> |text| >= 32
  {
    var h := HexPart(text);
    |h| == 32 && AllHex(h)
  }

  /** `uuid.UUID(text).int`, or `None` where the constructor raises `ValueError`. */
  function Parse(text: string): (r: Option<Uuid>)
    ensures r.Some? <==> IsValid(text)
  {
    if IsValid(text) then Some(FromHex(HexPart(text)) as Uuid) else None
  }

  // --- Lemmas --------------------------------------------------------------

  lemma {:induction false} RemoveAllAbsent(s: string, pattern: string)
    requires pattern != []
    requires forall i :: 0 <= i < |s| ==> s[i] != pattern[0]
    ensures RemoveAll(s, pattern) == s
    decreases |s|
  {
    if |s| >= |pattern| {
      assert s[..|pattern|][0] != pattern[0];
      RemoveAllAbsent(s[1..], pattern);
    }
  }

  /** Removing one character distributes over concatenation. */
  lemma {:induction false} RemoveCharAppend(a: string, b: string, c: char)
    ensures RemoveAll(a + b, [c]) == RemoveAll(a, [c]) + RemoveAll(b, [c])
    decreases |a|
  {
    if a != [] {
      assert (a + b)[1..] == a[1..] + b;
      assert (a + b)[..1] == a[..1];
      RemoveCharAppend(a[1..], b, c);
    } else {
      assert a + b == b;
    }
  }

  lemma RemoveHyphenJoin(a: string, b: string)
    requires AllHex(a)
    ensures RemoveAll(Hyphenate(a, b), "-") == a + RemoveAll(b, "-")
  {
    RemoveCharAppend(a, "-" + b, '-');
    RemoveCharAppend("-", b, '-');
    RemoveAllAbsent(a, "-");
    assert RemoveAll("-", "-") == "";
    assert a + "-" + b == a + ("-" + b);
  }

  /** The digits of 8-4-4-4-12 grouped text, without its hyphens. */
  function Ungrouped(s: string): string
    requires |s| == 36
  {
    s[..8] + s[9..13] + s[14..18] + s[19..23] + s[24..]
  }

  /** Hyphens after 8, 12, 16 and 20 digits, and hex digits (of either case) everywhere else. */
  predicate IsCanonicalShape(s: string) {
    && |s| == 36
    && s[8] == '-' && s[13] == '-' && s[18] == '-' && s[23] == '-'
    && forall i :: 0 <= i < |s| && i != 8 && i != 13 && i != 18 && i != 23 ==> IsHexDigit(s[i])
  }

  /** Canonical shape with lowercase digits: what `str()` writes. */
  predicate IsLowerCanonical(s: string) {
    IsCanonicalShape(s) && forall i :: 0 <= i < |s| && s[i] != '-' ==> IsLowerHexDigit(s[i])
  }

  lemma StripBracesUnbraced(s: string)
    requires s != [] ==> !IsBrace(s[0]) && !IsBrace(s[|s| - 1])
    ensures StripBraces(s) == s
  {
    assert StripLeadingBraces(s) == s;
  }

  /** Text without `u` or braces loses nothing but its hyphens. */
  lemma HexPartWithoutMarkers(s: string)
    requires forall i :: 0 <= i < |s| ==> s[i] != 'u' && !IsBrace(s[i])
    ensures HexPart(s) == RemoveAll(s, "-")
  {
    RemoveAllAbsent(s, "urn:");
    var a := RemoveAll(s, "urn:");
    RemoveAllAbsent(a, "uuid:");
    var b := RemoveAll(a, "uuid:");
    StripBracesUnbraced(b);
  }

  /** The five digit groups of canonical-shape text are hex. */
  lemma CanonicalGroupsAreHex(s: string)
    requires IsCanonicalShape(s)
    ensures AllHex(s[..8]) && AllHex(s[9..13]) && AllHex(s[14..18]) && AllHex(s[19..23]) && AllHex(s[24..])
  {
    forall i | 0 <= i < 8 ensures IsHexDigit(s[..8][i]) { assert s[..8][i] == s[i]; }
    forall i | 0 <= i < 4 ensures IsHexDigit(s[9..13][i]) { assert s[9..13][i] == s[9 + i]; }
    forall i | 0 <= i < 4 ensures IsHexDigit(s[14..18][i]) { assert s[14..18][i] == s[14 + i]; }
    forall i | 0 <= i < 4 ensures IsHexDigit(s[19..23][i]) { assert s[19..23][i] == s[19 + i]; }
    forall i | 0 <= i < 12 ensures IsHexDigit(s[24..][i]) { assert s[24..][i] == s[24 + i]; }
  }

  /** Canonical-shape text is its five groups joined by hyphens. */
  lemma CanonicalGrouping(s: string)
    requires |s| == 36 && s[8] == '-' && s[13] == '-' && s[18] == '-' && s[23] == '-'
    ensures s == Hyphenate(s[..8], Hyphenate(s[9..13], Hyphenate(s[14..18], Hyphenate(s[19..23], s[24..]))))
  {
  }

  /** Taking the hyphens out of hex groups joined by hyphens leaves the groups. */
  lemma RemoveHyphensOfGroups(p0: string, p1: string, p2: string, p3: string, p4: string)
    requires AllHex(p0) && AllHex(p1) && AllHex(p2) && AllHex(p3) && AllHex(p4)
    ensures RemoveAll(Hyphenate(p0, Hyphenate(p1, Hyphenate(p2, Hyphenate(p3, p4)))), "-")
         == p0 + p1 + p2 + p3 + p4
  {
    var r3 := Hyphenate(p3, p4);
    var r2 := Hyphenate(p2, r3);
    var r1 := Hyphenate(p1, r2);
    RemoveAllAbsent(p4, "-");
    RemoveHyphenJoin(p3, p4);
    assert RemoveAll(r3, "-") == p3 + p4;
    RemoveHyphenJoin(p2, r3);
    assert RemoveAll(r2, "-") == p2 + (p3 + p4);
    RemoveHyphenJoin(p1, r2);
    assert RemoveAll(r1, "-") == p1 + (p2 + (p3 + p4));
    RemoveHyphenJoin(p0, r1);
    ConcatAssociates(p0, p1, p2, p3, p4);
  }

  lemma ConcatAssociates(p0: string, p1: string, p2: string, p3: string, p4: string)
    ensures p0 + (p1 + (p2 + (p3 + p4))) == p0 + p1 + p2 + p3 + p4
  {
  }

  /** Text of canonical shape contains no `urn:`, `uuid:` or braces, so only
      its hyphens are taken out. */
  lemma CanonicalShapeHexPart(s: string)
    requires IsCanonicalShape(s)
    ensures HexPart(s) == Ungrouped(s)
  {
    forall i | 0 <= i < |s| ensures s[i] != 'u' && !IsBrace(s[i]) {
    }
    HexPartWithoutMarkers(s);
    CanonicalGroupsAreHex(s);
    CanonicalGrouping(s);
    RemoveHyphensOfGroups(s[..8], s[9..13], s[14..18], s[19..23], s[24..]);
  }

  /** Every string of canonical shape is accepted. */
  lemma CanonicalShapeIsValid(s: string)
    requires IsCanonicalShape(s)
    ensures IsValid(s)
  {
    CanonicalShapeHexPart(s);
    var h := Ungrouped(s);
    forall i | 0 <= i < |h| ensures IsHexDigit(h[i]) {
      if i < 8 { assert h[i] == s[i]; }
      else if i < 12 { assert h[i] == s[i + 1]; }
      else if i < 16 { assert h[i] == s[i + 2]; }
      else if i < 20 { assert h[i] == s[i + 3]; }
      else { assert h[i] == s[i + 4]; }
    }
  }

  /** Where the groups of `Group(h)` sit. */
  lemma GroupSlices(h: string)
    requires |h| == 32
    ensures var s := Group(h);
      && s[8] == '-' && s[13] == '-' && s[18] == '-' && s[23] == '-'
      && s[..8] == h[..8] && s[9..13] == h[8..12] && s[14..18] == h[12..16]
      && s[19..23] == h[16..20] && s[24..] == h[20..]
  {
  }

  lemma UngroupGroup(h: string)
    requires |h| == 32
    ensures Ungrouped(Group(h)) == h
  {
    GroupSlices(h);
    assert h[..8] + h[8..12] + h[12..16] + h[16..20] + h[20..] == h;
  }

  lemma GroupUngroup(s: string)
    requires |s| == 36 && s[8] == '-' && s[13] == '-' && s[18] == '-' && s[23] == '-'
    ensures Group(Ungrouped(s)) == s
  {
    var h := Ungrouped(s);
    assert h[..8] == s[..8] && h[8..12] == s[9..13] && h[12..16] == s[14..18];
    assert h[16..20] == s[19..23] && h[20..] == s[24..];
    CanonicalGrouping(s);
  }

  /** Grouping lowercase digits gives lowercase text of canonical shape. */
  lemma GroupIsLowerCanonical(h: string)
    requires |h| == 32 && AllLowerHex(h)
    ensures IsLowerCanonical(Group(h))
  {
    var s := Group(h);
    GroupSlices(h);
    forall i | 0 <= i < 36 && i != 8 && i != 13 && i != 18 && i != 23
      ensures IsLowerHexDigit(s[i])
    {
      if i < 8 { assert s[i] == s[..8][i]; }
      else if i < 13 { assert s[i] == s[9..13][i - 9] == h[i - 1]; }
      else if i < 18 { assert s[i] == s[14..18][i - 14] == h[i - 2]; }
      else if i < 23 { assert s[i] == s[19..23][i - 19] == h[i - 3]; }
      else { assert s[i] == s[24..][i - 24] == h[i - 4]; }
    }
  }

  /** `str(u)` is lowercase text of canonical shape. */
  lemma FormatIsLowerCanonical(u: Uuid)
    ensures IsLowerCanonical(Format(u))
  {
    GroupIsLowerCanonical(ToHex(u, 32));
  }

  /** The text `uuid.UUID` reads from a canonical string is its 32 digits. */
  lemma FormatHexPart(u: Uuid)
    ensures HexPart(Format(u)) == ToHex(u, 32)
  {
    FormatIsLowerCanonical(u);
    CanonicalShapeHexPart(Format(u));
    UngroupGroup(ToHex(u, 32));
  }

  /** Formatting any 128-bit value yields a string that validates and reads
      back as the same value. */
  lemma FormatRoundTrip(u: Uuid)
    ensures IsValid(Format(u))
    ensures Parse(Format(u)) == Some(u)
  {
    FormatHexPart(u);
    FromHexToHex(u, 32);
  }

  /** Canonical text is the only text `Format` writes for a value. */
  lemma FormatInjective(u: Uuid, v: Uuid)
    requires Format(u) == Format(v)
    ensures u == v
  {
    FormatRoundTrip(u);
    FormatRoundTrip(v);
  }

  /** Fewer than 32 characters can never leave 32 hex digits. */
  lemma ShortTextIsInvalid(text: string)
    requires |text| < 32
    ensures !IsValid(text)
  {
  }

  lemma HexCharOfValue(c: char)
    requires IsLowerHexDigit(c)
    ensures HexChar(HexValue(c)) == c
  {
  }

  lemma DivideBySixteen(q: nat, r: nat)
    requires r < 16
    ensures (16 * q + r) / 16 == q && (16 * q + r) % 16 == r
  {
  }

  lemma {:induction false} ToHexFromHex(s: string)
    requires AllHex(s) && AllLowerHex(s)
    ensures ToHex(FromHex(s), |s|) == s
    decreases |s|
  {
    if s != [] {
      var init, last := s[..|s| - 1], s[|s| - 1];
      assert AllHex(init) && AllLowerHex(init);
      DivideBySixteen(FromHex(init), HexValue(last));
      ToHexFromHex(init);
      HexCharOfValue(last);
      assert s == init + [last];
    }
  }

  lemma UngroupedIsLowerHex(s: string)
    requires IsLowerCanonical(s)
    ensures AllLowerHex(Ungrouped(s))
  {
    var h := Ungrouped(s);
    forall i | 0 <= i < |h| ensures IsLowerHexDigit(h[i]) {
      if i < 8 { assert h[i] == s[i]; }
      else if i < 12 { assert h[i] == s[i + 1]; }
      else if i < 16 { assert h[i] == s[i + 2]; }
      else if i < 20 { assert h[i] == s[i + 3]; }
      else { assert h[i] == s[i + 4]; }
    }
  }

  /** Lowercase text of canonical shape is exactly what `str()` writes for the
      UUID it denotes. */
  lemma CanonicalTextRoundTrip(s: string)
    requires IsLowerCanonical(s)
    ensures Parse(s).Some? && Format(Parse(s).value) == s
  {
    CanonicalShapeIsValid(s);
    CanonicalShapeHexPart(s);
    var h := Ungrouped(s);
    UngroupedIsLowerHex(s);
    ToHexFromHex(h);
    assert Format(Parse(s).value) == Group(h);
    GroupUngroup(s);
  }

  /** Lowercase hex groups of 8, 4, 4, 4 and 12 digits, joined by hyphens,
      make lowercase text of canonical shape. */
  lemma GroupedTextShape(p0: string, p1: string, p2: string, p3: string, p4: string)
    requires |p0| == 8 && |p1| == 4 && |p2| == 4 && |p3| == 4 && |p4| == 12
    requires AllLowerHex(p0) && AllLowerHex(p1) && AllLowerHex(p2) && AllLowerHex(p3) && AllLowerHex(p4)
    ensures IsLowerCanonical(p0 + "-" + p1 + "-" + p2 + "-" + p3 + "-" + p4)
  {
    var s := p0 + "-" + p1 + "-" + p2 + "-" + p3 + "-" + p4;
    assert |s| == 36;
    forall i | 0 <= i < 36 && i != 8 && i != 13 && i != 18 && i != 23
      ensures IsLowerHexDigit(s[i])
    {
      if i < 8 { assert s[i] == p0[i]; }
      else if i < 13 { assert s[i] == p1[i - 9]; }
      else if i < 18 { assert s[i] == p2[i - 14]; }
      else if i < 23 { assert s[i] == p3[i - 19]; }
      else { assert s[i] == p4[i - 24]; }
    }
  }

  /** The id the unit tests use, group by group. */
  lemma TestIdGroups()
    ensures "08976216-4179-40bd-ba77-d357c95b9bba" == "08976216" + "-" + "4179" + "-" + "40bd" + "-" + "ba77" + "-" + "d357c95b9bba"
  {
  }

  lemma TestIdGroupsAreHex()
    ensures AllLowerHex("08976216") && AllLowerHex("4179") && AllLowerHex("40bd") && AllLowerHex("ba77")
    ensures AllLowerHex("d357c95b9bba")
  {
  }

  /** The string the unit test accepts, and `str(uuid.UUID(...))` of it gives
      back the same text. */
  lemma TestIdRoundTrip()
    ensures IsValid("08976216-4179-40bd-ba77-d357c95b9bba")
    ensures Parse("08976216-4179-40bd-ba77-d357c95b9bba").Some?
    ensures Format(Parse("08976216-4179-40bd-ba77-d357c95b9bba").value) == "08976216-4179-40bd-ba77-d357c95b9bba"
  {
    TestIdGroups();
    TestIdGroupsAreHex();
    GroupedTextShape("08976216", "4179", "40bd", "ba77", "d357c95b9bba");
    CanonicalTextRoundTrip("08976216-4179-40bd-ba77-d357c95b9bba");
  }

  /** The string the unit test rejects. */
  lemma FakeIdIsInvalid()
    ensures !IsValid("Fake ID")
  {
    ShortTextIsInvalid("Fake ID");
  }
}
