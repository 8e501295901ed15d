/** `json.dumps` of a flat dict from str to str, with the default separators
    `", "` and `": "`, and a reader for exactly that output. */
module Json {
  import opened Results

  /** Characters `json.dumps` writes inside a string literally: printable
      ASCII other than the quote and the backslash. */
  predicate IsPlainChar(c: char) {
    ' ' <= c <= '~' && c != '"' && c != '\\'
  }

  predicate IsPlain(s: string) {
    forall i :: 0 <= i < |s| ==> IsPlainChar(s[i])
  }

  /** One key/value pair of the dict, in insertion order. */
  type Member = (string, string)

  predicate AllPlain(members: seq<Member>) {
    forall i :: 0 <= i < |members| ==> IsPlain(members[i].0) && IsPlain(members[i].1)
  }

  function DumpString(s: string): string {
    "\"" + s + "\""
  }

  function DumpMember(m: Member): string {
    DumpString(m.0) + ": " + DumpString(m.1)
  }

  function DumpMembers(members: seq<Member>): string {
    if members == [] then ""
    else if |members| == 1 then DumpMember(members[0])
    else DumpMember(members[0]) + ", " + DumpMembers(members[1..])
  }

  /** `json.dumps(d)`, for a dict whose keys and values need no escaping. */
  function DumpObject(members: seq<Member>): (s: string)
    requires AllPlain(members)
    ensures |s| >= 2 && s[0] == '{' && s[|s| - 1] == '}'
  {
    "{" + DumpMembers(members) + "}"
  }

  // --- Reading it back ---------------------------------------------------

  /** Position of the first quote in `s`, or `|s|` if there is none. */
  function QuoteIndex(s: string): (k: nat)
    ensures k <= |s|
  {
    if s == [] || s[0] == '"' then 0 else 1 + QuoteIndex(s[1..])
  }

  /** A string token at the start of `s`: its content and what follows it. */
  function ParseString(s: string): (r: Option<(string, string)>)
    ensures r.Some? ==> |r.value.1| < |s|
  {
    if s == [] || s[0] != '"' then None
    else
      var k := QuoteIndex(s[1..]);
      if k == |s| - 1 then None else Some((s[1..k + 1], s[k + 2..]))
  }

  /** `"key": "value"` at the start of `s`, and what follows it. */
  function ParseMember(s: string): (r: Option<(Member, string)>)
    ensures r.Some? ==> |r.value.1| < |s|
  {
    match ParseString(s)
    case None => None
    case Some((key, rest)) =>
      if |rest| < 2 || rest[..2] != ": " then None
      else
        match ParseString(rest[2..])
        case None => None
        case Some((value, rest')) => Some(((key, value), rest'))
  }

  /** One or more members separated by `", "`, filling all of `s`. */
  function ParseMembers(s: string): Option<seq<Member>>
    decreases |s|
  {
    match ParseMember(s)
    case None => None
    case Some((m, rest)) =>
      if rest == [] then Some([m])
      else if |rest| < 2 || rest[..2] != ", " then None
      else
        match ParseMembers(rest[2..])
        case None => None
        case Some(ms) => Some([m] + ms)
  }

  /** A whole JSON object of string members. */
  function ParseObject(s: string): Option<seq<Member>> {
    if |s| < 2 || s[0] != '{' || s[|s| - 1] != '}' then None
    else
      var inner := s[1..|s| - 1];
      if inner == [] then Some([]) else ParseMembers(inner)
  }

  lemma {:induction false} QuoteIndexAfter(t: string, rest: string)
    requires IsPlain(t)
    ensures QuoteIndex(t + "\"" + rest) == |t|
    decreases |t|
  {
    if t != [] {
      assert (t + "\"" + rest)[1..] == t[1..] + "\"" + rest;
      QuoteIndexAfter(t[1..], rest);
    }
  }

  lemma ParseStringDump(t: string, rest: string)
    requires IsPlain(t)
    ensures ParseString(DumpString(t) + rest) == Some((t, rest))
  {
    var s := DumpString(t) + rest;
    assert s[1..] == t + "\"" + rest;
    QuoteIndexAfter(t, rest);
    assert s[1..|t| + 1] == t;
    assert s[|t| + 2..] == rest;
  }

  lemma ParseMemberDump(m: Member, rest: string)
    requires IsPlain(m.0) && IsPlain(m.1)
    ensures ParseMember(DumpMember(m) + rest) == Some((m, rest))
  {
    var after := ": " + DumpString(m.1) + rest;
    assert DumpMember(m) + rest == DumpString(m.0) + after;
    ParseStringDump(m.0, after);
    assert after[..2] == ": ";
    assert after[2..] == DumpString(m.1) + rest;
    ParseStringDump(m.1, rest);
  }

  lemma ParseMembersStep(m: Member, tail: string, ms: seq<Member>)
    requires IsPlain(m.0) && IsPlain(m.1)
    requires ParseMembers(tail) == Some(ms)
    ensures ParseMembers(DumpMember(m) + ", " + tail) == Some([m] + ms)
  {
    var rest := ", " + tail;
    assert DumpMember(m) + ", " + tail == DumpMember(m) + rest;
    ParseMemberDump(m, rest);
    assert rest[..2] == ", " && rest[2..] == tail;
  }

  lemma AllPlainTail(members: seq<Member>)
    requires members != [] && AllPlain(members)
    ensures AllPlain(members[1..])
  {
    forall i | 0 <= i < |members[1..]|
      ensures IsPlain(members[1..][i].0) && IsPlain(members[1..][i].1)
    {
      assert members[1..][i] == members[i + 1];
    }
  }

  lemma {:induction false} ParseMembersDump(members: seq<Member>)
    requires members != [] && AllPlain(members)
    ensures ParseMembers(DumpMembers(members)) == Some(members)
    decreases |members|
  {
    if |members| == 1 {
      ParseMemberDump(members[0], "");
      assert DumpMember(members[0]) + "" == DumpMember(members[0]);
      assert members == [members[0]];
    } else {
      AllPlainTail(members);
      ParseMembersDump(members[1..]);
      ParseMembersStep(members[0], DumpMembers(members[1..]), members[1..]);
      assert [members[0]] + members[1..] == members;
    }
  }

  /** What `json.dumps` writes reads back as the same members in the same order. */
  lemma DumpObjectRoundTrip(members: seq<Member>)
    requires AllPlain(members)
    ensures ParseObject(DumpObject(members)) == Some(members)
  {
    var s := DumpObject(members);
    assert s[1..|s| - 1] == DumpMembers(members);
    if members != [] {
      ParseMembersDump(members);
    }
  }
}
