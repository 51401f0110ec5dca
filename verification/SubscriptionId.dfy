/**
 The subscription-id validator, checked against the regular grammar it documents:
 `[a-z0-9][a-z0-9._-]*\.v[1-9][0-9]*`, at most 128 bytes, no doubled dot.
 */
module SubscriptionId {
  import opened Evidence

  const MAX_SUBSCRIPTION_ID_BYTES := 128

  // ----- Characters and bytes -----

  predicate IsLower(c: char) { 'a' <= c <= 'z' }

  predicate IsDigit(c: char) { '0' <= c <= '9' }

  predicate IsNameChar(c: char) { IsLower(c) || IsDigit(c) || c == '.' || c == '_' || c == '-' }

  // Bytes a character takes in UTF-8.
  function Utf8Width(c: char): nat {
    if c < '\U{80}' then 1 else if c < '\U{800}' then 2 else if c < '\U{10000}' then 3 else 4
  }

  function ByteLen(s: string): nat { if s == "" then 0 else Utf8Width(s[0]) + ByteLen(s[1..]) }

  // `s` contains `p` at position `i`.
  predicate OccursAt(s: string, p: string, i: int) { 0 <= i <= |s| - |p| && s[i..i + |p|] == p }

  predicate Contains(s: string, p: string) { exists i :: 0 <= i <= |s| - |p| && OccursAt(s, p, i) }

  // `str::rfind`: the last position below `limit` where `p` occurs.
  function RFindBelow(s: string, p: string, limit: nat): (r: Option<nat>)
    requires limit <= |s| + 1
    ensures r.Some? ==> r.value < limit && OccursAt(s, p, r.value)
    ensures forall i :: (if r.Some? then r.value else -1) < i < limit ==> !OccursAt(s, p, i)
  {
    if limit == 0 then None
    else if OccursAt(s, p, limit - 1) then Some(limit - 1)
    else RFindBelow(s, p, limit - 1)
  }

  function RFind(s: string, p: string): Option<nat> { RFindBelow(s, p, |s| + 1) }

  // ----- The validators -----

  function ValidateComponentId(id: string, maxLen: nat): Result<(), string> {
    if ByteLen(id) > maxLen then Err("component id longer than maximum")
    else if exists i :: 0 <= i < |id| && !IsNameChar(id[i]) then
      Err("component id has characters outside [a-z0-9._-]")
    else Ok(())
  }

  // The checks on the text before and after the last ".v".
  function ValidateParts(name: string, version: string): Result<(), string> {
    if name == "" then Err("subscription id name prefix is empty")
    else if !(IsLower(name[0]) || IsDigit(name[0])) then Err("subscription id must start with [a-z0-9]")
    else
      var component := ValidateComponentId(name, MAX_SUBSCRIPTION_ID_BYTES);
      if component.Err? then component
      else if version == "" then Err("subscription id missing version digits after .v")
      else if !IsDigit(version[0]) || version[0] == '0' then Err("subscription id version must start with 1-9")
      else if exists i :: 0 <= i < |version| && !IsDigit(version[i]) then
        Err("subscription id version must be digits only")
      else Ok(())
  }

  function ValidateSubscriptionId(id: string): Result<(), string> {
    if id == "" then Err("empty subscription id")
    else if ByteLen(id) > MAX_SUBSCRIPTION_ID_BYTES then Err("subscription id longer than 128 bytes")
    else if id[0] == '.' || id[|id| - 1] == '.' then Err("subscription id has a leading or trailing '.'")
    else if Contains(id, "..") then Err("subscription id has a doubled '.'")
    else
      var dotV := RFind(id, ".v");
      if dotV.None? then Err("subscription id must contain a .v version suffix")
      else ValidateParts(id[..dotV.value], id[dotV.value + 2..])
  }

  // ----- The grammar -----

  ghost predicate IsName(s: string) {
    && s != "" && s[0] !in ['.', '_', '-']
    && forall i :: 0 <= i < |s| ==> 'a' <= s[i] <= 'z' || '0' <= s[i] <= '9' || s[i] in ['.', '_', '-']
  }

  ghost predicate IsVersion(s: string) {
    s != "" && s[0] != '0' && forall i :: 0 <= i < |s| ==> '0' <= s[i] <= '9'
  }

  ghost predicate NoDoubledDot(s: string) { forall i :: 0 < i < |s| ==> !(s[i - 1] == '.' && s[i] == '.') }

  // Some split of `id` matches the grammar.
  ghost predicate Matches(id: string) {
    exists name, version :: IsName(name) && IsVersion(version) && id == name + ".v" + version
  }

  lemma DotV(s: string, i: int)
    ensures OccursAt(s, ".v", i) <==> 0 <= i < |s| - 1 && s[i] == '.' && s[i + 1] == 'v'
  {
    if 0 <= i < |s| - 1 { assert s[i..i + 2] == [s[i], s[i + 1]]; }
  }

  lemma DoubledDot(s: string)
    ensures Contains(s, "..") <==> !NoDoubledDot(s)
  {
    forall i | 0 <= i <= |s| - 2 ensures OccursAt(s, "..", i) <==> s[i] == '.' && s[i + 1] == '.' {
      assert s[i..i + 2] == [s[i], s[i + 1]];
    }
    if i :| 0 < i < |s| && s[i - 1] == '.' && s[i] == '.' { assert OccursAt(s, "..", i - 1); }
    if Contains(s, "..") {
      var i :| 0 <= i <= |s| - 2 && OccursAt(s, "..", i);
      assert s[i + 1 - 1] == '.' && s[i + 1] == '.';
    }
  }

  // Digits hold no ".v", so the grammar's separator is the last one.
  lemma SeparatorIsLast(name: string, version: string)
    requires IsVersion(version)
    ensures RFind(name + ".v" + version, ".v") == Some(|name|)
  {
    var id := name + ".v" + version;
    assert OccursAt(id, ".v", |name|) by { DotV(id, |name|); }
    forall i | |name| < i < |id| + 1 ensures !OccursAt(id, ".v", i) {
      DotV(id, i);
      assert |name| + 2 <= i < |id| ==> id[i] == version[i - |name| - 2];
    }
  }

  // Text of the grammar is ASCII, so its byte length is its length.
  lemma {:induction false} AsciiByteLen(s: string)
    requires forall i :: 0 <= i < |s| ==> s[i] < '\U{80}'
    ensures ByteLen(s) == |s|
  {
    if s != "" { AsciiByteLen(s[1..]); }
  }

  lemma {:induction false} PrefixByteLen(s: string, n: nat)
    requires n <= |s|
    ensures ByteLen(s[..n]) <= ByteLen(s)
  {
    if n > 0 {
      PrefixByteLen(s[1..], n - 1);
      assert s[..n][1..] == s[1..][..n - 1];
    }
  }

  lemma {:induction false} PartsMatch(name: string, version: string)
    ensures ValidateParts(name, version).Ok? <==>
            IsName(name) && IsVersion(version) && ByteLen(name) <= MAX_SUBSCRIPTION_ID_BYTES
  {
  }

  lemma AcceptedMatches(id: string)
    requires ValidateSubscriptionId(id).Ok?
    ensures Matches(id)
  {
    var k := RFind(id, ".v").value;
    var name, version := id[..k], id[k + 2..];
    PartsMatch(name, version);
    assert id == name + id[k..k + 2] + version;
  }

  lemma {:induction false} MatchIsAccepted(id: string, name: string, version: string)
    requires IsName(name) && IsVersion(version) && id == name + ".v" + version
    requires ByteLen(id) <= MAX_SUBSCRIPTION_ID_BYTES && !Contains(id, "..")
    ensures ValidateSubscriptionId(id).Ok?
  {
    SeparatorIsLast(name, version);
    PrefixByteLen(id, |name|);
    assert id[..|name|] == name && id[|name| + 2..] == version;
    PartsMatch(name, version);
    assert id[0] == name[0] && id[|id| - 1] == version[|version| - 1];
  }

  /** The validator accepts an id iff it fits in 128 bytes, has no doubled dot and
      has some split that matches the documented grammar. */
  lemma {:induction false} ValidatorMatchesGrammar(id: string)
    ensures ValidateSubscriptionId(id).Ok? <==> |id| <= 128 && NoDoubledDot(id) && Matches(id)
  {
    DoubledDot(id);
    if ValidateSubscriptionId(id).Ok? { AcceptedMatches(id); }
    if Matches(id) {
      var name, version :| IsName(name) && IsVersion(version) && id == name + ".v" + version;
      AsciiByteLen(id);
      if |id| <= 128 && NoDoubledDot(id) { MatchIsAccepted(id, name, version); }
    }
  }

  /** A matching id has exactly one split, and is ASCII. */
  lemma {:induction false} SplitUnique(n1: string, v1: string, n2: string, v2: string)
    requires IsName(n1) && IsVersion(v1) && IsName(n2) && IsVersion(v2)
    requires n1 + ".v" + v1 == n2 + ".v" + v2
    ensures n1 == n2 && v1 == v2
    ensures ByteLen(n1 + ".v" + v1) == |n1 + ".v" + v1|
  {
    SeparatorIsLast(n1, v1);
    SeparatorIsLast(n2, v2);
    var id := n1 + ".v" + v1;
    assert n1 == id[..|n1|] && n2 == id[..|n2|];
    assert v1 == id[|n1| + 2..] && v2 == id[|n2| + 2..];
    AsciiByteLen(id);
  }
}
