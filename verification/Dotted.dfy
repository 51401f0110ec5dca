/**
 Dotted names: what "no leading, trailing or doubled dot" means for the parts between
 the dots.
 */
module Dotted {

  // The parts of a name between its dots.
  function Segments(s: string): (parts: seq<string>)
    ensures parts != []
  {
    if s == "" then [""]
    else
      var rest := Segments(s[1..]);
      if s[0] == '.' then [""] + rest else [[s[0]] + rest[0]] + rest[1..]
  }

  function Join(parts: seq<string>): string
    requires parts != []
  {
    if |parts| == 1 then parts[0] else parts[0] + "." + Join(parts[1..])
  }

  /** The segments are dot-free and spell the name when joined with dots. */
  lemma {:induction false} SegmentsSpell(s: string)
    ensures Join(Segments(s)) == s
    ensures forall p :: p in Segments(s) ==> '.' !in p
  {
    if s != "" {
      SegmentsSpell(s[1..]);
      var rest := Segments(s[1..]);
      if s[0] == '.' {
        assert ([""] + rest)[1..] == rest;
        assert "" + "." + Join(rest) == s;
      } else {
        var parts := [[s[0]] + rest[0]] + rest[1..];
        assert parts[1..] == rest[1..];
        assert forall p :: p in parts <==> p == [s[0]] + rest[0] || p in rest[1..];
        if |rest| > 1 { assert [s[0]] + rest[0] + "." + Join(rest[1..]) == [s[0]] + (rest[0] + "." + Join(rest[1..])); }
      }
    }
  }

  // The dot rule as the validators check it.
  predicate DotsSeparate(s: string) {
    && s != "" && s[0] != '.' && s[|s| - 1] != '.'
    && forall i :: 0 < i < |s| ==> !(s[i - 1] == '.' && s[i] == '.')
  }

  predicate NoneEmpty(parts: seq<string>) { forall i :: 0 <= i < |parts| ==> parts[i] != "" }

  // The dot rule for what follows a non-dot.
  predicate DotsSeparateAfter(s: string) {
    && (s != "" ==> s[|s| - 1] != '.')
    && forall i :: 0 < i < |s| ==> !(s[i - 1] == '.' && s[i] == '.')
  }

  lemma {:induction false} TailSegments(s: string)
    ensures DotsSeparateAfter(s) <==> NoneEmpty(Segments(s)[1..])
  {
    if s != "" {
      var t := s[1..];
      var rest := Segments(t);
      TailSegments(t);
      if s[0] == '.' {
        assert Segments(s)[1..] == rest;
        assert NoneEmpty(rest) <==> rest[0] != "" && NoneEmpty(rest[1..]) by { ConsNoneEmpty(rest); }
        FirstSegment(t);
        if DotsSeparateAfter(s) { AfterTail(s); }
        if DotsSeparateAfter(t) && t != "" && t[0] != '.' { AfterCons(s); }
      } else {
        assert Segments(s)[1..] == rest[1..];
        if DotsSeparateAfter(s) { AfterTail(s); }
        if DotsSeparateAfter(t) { AfterCons(s); }
      }
    }
  }

  lemma ConsNoneEmpty(parts: seq<string>)
    requires parts != []
    ensures NoneEmpty(parts) <==> parts[0] != "" && NoneEmpty(parts[1..])
  {
    if parts[0] != "" && NoneEmpty(parts[1..]) {
      forall i | 0 <= i < |parts| ensures parts[i] != "" { if i > 0 { assert parts[1..][i - 1] != ""; } }
    }
  }

  lemma {:induction false} FirstSegment(s: string)
    ensures Segments(s)[0] != "" <==> s != "" && s[0] != '.'
  {
  }

  lemma AfterTail(s: string)
    requires s != "" && DotsSeparateAfter(s)
    ensures DotsSeparateAfter(s[1..])
  {
    var t := s[1..];
    forall i | 0 < i < |t| ensures !(t[i - 1] == '.' && t[i] == '.') { assert !(s[i] == '.' && s[i + 1] == '.'); }
  }

  lemma AfterCons(s: string)
    requires s != "" && DotsSeparateAfter(s[1..]) && (s[0] == '.' ==> |s| > 1 && s[1] != '.')
    ensures DotsSeparateAfter(s)
  {
    var t := s[1..];
    forall i | 0 < i < |s| ensures !(s[i - 1] == '.' && s[i] == '.') {
      if i > 1 { assert !(t[i - 2] == '.' && t[i - 1] == '.'); }
    }
  }

  /** A name has no leading, trailing or doubled dot iff none of its segments is empty. */
  lemma {:induction false} DotsExact(s: string)
    ensures DotsSeparate(s) <==> NoneEmpty(Segments(s))
  {
    TailSegments(s);
    FirstSegment(s);
    ConsNoneEmpty(Segments(s));
    assert DotsSeparate(s) <==> s != "" && s[0] != '.' && DotsSeparateAfter(s);
  }

  // Every character is `p` or a dot.
  ghost predicate OfChars(p: char -> bool, s: string) { forall i :: 0 <= i < |s| ==> s[i] == '.' || p(s[i]) }

  ghost predicate AllOf(p: char -> bool, part: string) { forall i :: 0 <= i < |part| ==> p(part[i]) }

  ghost predicate PartsOf(p: char -> bool, parts: seq<string>) { forall i :: 0 <= i < |parts| ==> AllOf(p, parts[i]) }

  lemma PartsCons(p: char -> bool, parts: seq<string>)
    requires parts != []
    ensures PartsOf(p, parts) <==> AllOf(p, parts[0]) && PartsOf(p, parts[1..])
  {
    if AllOf(p, parts[0]) && PartsOf(p, parts[1..]) {
      forall i | 0 <= i < |parts| ensures AllOf(p, parts[i]) { if i > 0 { assert parts[1..][i - 1] == parts[i]; } }
    }
  }

  lemma CharsCons(p: char -> bool, s: string)
    requires s != ""
    ensures OfChars(p, s) <==> (s[0] == '.' || p(s[0])) && OfChars(p, s[1..])
    ensures AllOf(p, s) <==> p(s[0]) && AllOf(p, s[1..])
  {
    var t := s[1..];
    assert forall i :: 0 <= i < |t| ==> t[i] == s[i + 1];
    assert forall i :: 0 < i < |s| ==> s[i] == t[i - 1];
  }

  /** The characters of a name are dots and the characters of its segments. */
  lemma {:induction false} SegmentChars(p: char -> bool, s: string)
    ensures OfChars(p, s) <==> PartsOf(p, Segments(s))
  {
    if s != "" {
      var rest, parts := Segments(s[1..]), Segments(s);
      SegmentChars(p, s[1..]);
      CharsCons(p, s);
      PartsCons(p, rest);
      PartsCons(p, parts);
      if s[0] == '.' {
        assert parts[1..] == rest && AllOf(p, parts[0]);
      } else {
        assert parts[1..] == rest[1..] && parts[0][1..] == rest[0];
        CharsCons(p, parts[0]);
      }
    }
  }
}
