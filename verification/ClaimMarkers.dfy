/** Scanning prose for claim markers such as [MEASURED:claim] and [SOURCED:claim:source]. */
module ClaimMarkers {

  datatype Marker = Marker(class_: string, claimId: string, sourceId: string)

  const CLAIM_CLASSES: seq<string> := ["ASSUMED", "DEDUCED", "MEASURED", "SOURCED"]

  datatype Parsed = Parsed(marker: Marker) | NotMarker(claimLike: bool)

  predicate IdChar(c: char) {
    'a' <= c <= 'z' || '0' <= c <= '9' || c == '-'
  }

  /** A lowercase letter, then letters, digits and hyphens. */
  predicate StableMarkerId(s: string) {
    s != "" && 'a' <= s[0] <= 'z' && forall c <- s :: IdChar(c)
  }

  // ---- The simple meaning -----------------------------------------------------------

  /** The bracketed text spells this marker. */
  ghost predicate Spells(inner: string, m: Marker) {
    && m.class_ in CLAIM_CLASSES && StableMarkerId(m.claimId)
    && if m.class_ == "SOURCED"
       then StableMarkerId(m.sourceId) && inner == m.class_ + ":" + m.claimId + ":" + m.sourceId
       else m.sourceId == "" && inner == m.class_ + ":" + m.claimId
  }

  /** A well-formed marker stands at `i`, up to the bracket at `j`. */
  ghost predicate MarkerAt(text: string, i: int, j: int, m: Marker) {
    0 <= i < j < |text| && text[i] == '[' && text[j] == ']' && Spells(text[i + 1..j], m)
  }

  /** `markers` are the well-formed markers of the text from `i` on, in order. */
  ghost predicate MarkersFrom(text: string, i: nat, markers: seq<Marker>)
    decreases |text| - i
  {
    if i >= |text| then markers == []
    else if exists j, m :: MarkerAt(text, i, j, m)
    then markers != [] && (exists j :: MarkerAt(text, i, j, markers[0])) && MarkersFrom(text, i + 1, markers[1..])
    else MarkersFrom(text, i + 1, markers)
  }

  predicate MarkerChar(c: char) {
    IdChar(c) || c == ':' || 'A' <= c <= 'Z'
  }

  /** Nothing that spells a marker contains a bracket. */
  lemma SpelledWithoutBrackets(inner: string, m: Marker)
    requires Spells(inner, m)
    ensures forall c <- inner :: MarkerChar(c)
    ensures '[' !in inner && ']' !in inner
  {
    ClassChars(m.class_);
  }

  lemma ClassChars(class_: string)
    requires class_ in CLAIM_CLASSES
    ensures forall c <- class_ :: 'A' <= c <= 'Z'
  {
  }

  // ---- Splitting at colons -------------------------------------------------------------

  /** strings.Split at single colons. */
  function SplitColons(s: string): (parts: seq<string>)
    ensures parts != []
  {
    if s == "" then [""]
    else
      var rest := SplitColons(s[1..]);
      if s[0] == ':' then [""] + rest else [[s[0]] + rest[0]] + rest[1..]
  }

  lemma {:induction false} SplitNoColon(s: string)
    requires ':' !in s
    ensures SplitColons(s) == [s]
  {
    if s != "" {
      SplitNoColon(s[1..]);
      assert s == [s[0]] + s[1..];
    }
  }

  lemma {:induction false} SplitFirst(a: string, rest: string)
    requires ':' !in a
    ensures SplitColons(a + ":" + rest) == [a] + SplitColons(rest)
  {
    var s := a + ":" + rest;
    if a == "" {
      assert s == ":" + rest && s[1..] == rest;
    } else {
      assert s[1..] == a[1..] + ":" + rest;
      SplitFirst(a[1..], rest);
      assert a == [a[0]] + a[1..];
    }
  }

  function JoinColons(parts: seq<string>): string
    requires parts != []
  {
    if |parts| == 1 then parts[0] else parts[0] + ":" + JoinColons(parts[1..])
  }

  lemma {:induction false} JoinSplit(s: string)
    ensures JoinColons(SplitColons(s)) == s
  {
    if s != "" {
      JoinSplit(s[1..]);
      assert s == [s[0]] + s[1..];
      var rest := SplitColons(s[1..]);
      if s[0] == ':' {
        assert ([""] + rest)[1..] == rest;
      } else {
        var parts := [[s[0]] + rest[0]] + rest[1..];
        assert parts[1..] == rest[1..];
        if |rest| > 1 {
          assert [s[0]] + rest[0] + ":" + JoinColons(rest[1..]) == [s[0]] + (rest[0] + ":" + JoinColons(rest[1..]));
        }
      }
    }
  }

  // ---- Parsing ---------------------------------------------------------------------------

  /** parseClaimMarker, over the split parts. */
  function Parse(claimLike: string -> bool, inner: string): (r: Parsed)
  {
    var parts := SplitColons(inner);
    if parts[0] !in CLAIM_CLASSES then NotMarker(claimLike(inner))
    else if parts[0] == "SOURCED" then
      if |parts| != 3 || !StableMarkerId(parts[1]) || !StableMarkerId(parts[2]) then NotMarker(true)
      else Parsed(Marker(parts[0], parts[1], parts[2]))
    else if |parts| != 2 || !StableMarkerId(parts[1]) then NotMarker(true)
    else Parsed(Marker(parts[0], parts[1], ""))
  }

  lemma IdHasNoColon(s: string)
    requires StableMarkerId(s)
    ensures ':' !in s
  {
  }

  /** Parsing finds a marker exactly when the text spells it. */
  lemma ParseExactly(claimLike: string -> bool, inner: string, m: Marker)
    ensures Parse(claimLike, inner) == Parsed(m) <==> Spells(inner, m)
  {
    hide StableMarkerId;
    var parts := SplitColons(inner);
    JoinSplit(inner);
    if Parse(claimLike, inner) == Parsed(m) {
      if |parts| == 3 {
        assert parts[1..][1..] == parts[2..] && JoinColons(parts[2..]) == parts[2];
        assert inner == parts[0] + ":" + (parts[1] + ":" + parts[2]);
        assert inner == parts[0] + ":" + parts[1] + ":" + parts[2];
      } else {
        assert JoinColons(parts[1..]) == parts[1];
      }
    }
    if Spells(inner, m) {
      ClassChars(m.class_);
      IdHasNoColon(m.claimId);
      if m.class_ == "SOURCED" {
        IdHasNoColon(m.sourceId);
        assert inner == m.class_ + ":" + (m.claimId + ":" + m.sourceId);
        SplitFirst(m.class_, m.claimId + ":" + m.sourceId);
        SplitFirst(m.claimId, m.sourceId);
        SplitNoColon(m.sourceId);
      } else {
        SplitFirst(m.class_, m.claimId);
        SplitNoColon(m.claimId);
      }
    }
  }

  // ---- The scanner -------------------------------------------------------------------------

  /** The first position of `c` from an offset on, or the end of the text. */
  function IndexOf(text: string, offset: nat, c: char): (at: nat)
    requires offset <= |text|
    ensures offset <= at <= |text|
    decreases |text| - offset
  {
    if offset == |text| || text[offset] == c then offset else IndexOf(text, offset + 1, c)
  }

  /** What an opening bracket makes malformed, given the next closing one or the end of the text. */
  ghost function MalformedBracket(claimLike: string -> bool, text: string, i: nat, end: nat): seq<string>
    requires i < end <= |text|
  {
    if end == |text| then (if claimLike(text[i + 1..]) then [text[i..]] else [])
    else if Parse(claimLike, text[i + 1..end]) == NotMarker(true) then [text[i..end + 1]]
    else []
  }

  /** What is malformed at `i`: a bracket that resembles a marker without being one. */
  ghost function MalformedAt(claimLike: string -> bool, text: string, i: nat): seq<string>
    requires i < |text|
  {
    if text[i] != '[' then [] else MalformedBracket(claimLike, text, i, IndexOf(text, i + 1, ']'))
  }

  ghost function MalformedFrom(claimLike: string -> bool, text: string, i: nat): seq<string>
    requires i <= |text|
    decreases |text| - i
  {
    if i == |text| then [] else MalformedAt(claimLike, text, i) + MalformedFrom(claimLike, text, i + 1)
  }

  /** strings.IndexByte from an offset; the end of the text stands for -1. */
  method IndexFrom(text: string, offset: nat, c: char) returns (at: nat)
    requires offset <= |text|
    ensures at == IndexOf(text, offset, c)
    ensures offset <= at <= |text| && c !in text[offset..at] && (at < |text| ==> text[at] == c)
  {
    at := offset;
    while at < |text|
      invariant offset <= at <= |text|
      invariant c !in text[offset..at]
      invariant IndexOf(text, offset, c) == IndexOf(text, at, c)
    {
      if text[at] == c {
        return;
      }
      at := at + 1;
    }
  }

  /** No marker starts where there is no bracket. */
  lemma {:induction false} SkipPlain(text: string, i: nat, j: nat, markers: seq<Marker>)
    requires i <= j <= |text| && '[' !in text[i..j]
    ensures MarkersFrom(text, i, markers) <==> MarkersFrom(text, j, markers)
    decreases j - i
  {
    hide Spells;
    if i < j {
      assert text[i..j][0] == text[i];
      assert text[i + 1..j] == text[i..j][1..];
      SkipPlain(text, i + 1, j, markers);
    }
  }

  /** A marker that starts at `i` ends at the first closing bracket, and is the one parsed there. */
  lemma FirstBracketDecides(claimLike: string -> bool, text: string, i: nat, end: int, j: int, m: Marker)
    requires i < end < |text| && text[i] == '[' && text[end] == ']' && ']' !in text[i + 1..end]
    ensures MarkerAt(text, i, j, m) <==> j == end && Parse(claimLike, text[i + 1..end]) == Parsed(m)
  {
    hide Spells, Parse;
    ParseExactly(claimLike, text[i + 1..end], m);
    if MarkerAt(text, i, j, m) {
      SpelledWithoutBrackets(text[i + 1..j], m);
    }
  }

  /** scanClaimMarkers returns exactly the well-formed markers, and the malformed ones, in order. */
  method ScanClaimMarkers(claimLike: string -> bool, text: string) returns (markers: seq<Marker>, malformed: seq<string>)
    ensures MarkersFrom(text, 0, markers)
    ensures malformed == MalformedFrom(claimLike, text, 0)
  {
    hide MarkersFrom, MalformedFrom, IndexOf, Extends;
    markers, malformed := [], [];
    var offset := 0;
    NothingScanned(text);
    while offset < |text|
      invariant 0 <= offset <= |text|
      invariant Extends(text, 0, markers, offset)
      invariant malformed + MalformedFrom(claimLike, text, offset) == MalformedFrom(claimLike, text, 0)
    {
      var start := IndexFrom(text, offset, '[');
      SkipAll(text, offset, start);
      NoneMalformed(claimLike, text, offset, start);
      ExtendsThen(text, 0, markers, offset, [], start);
      assert markers + [] == markers;
      if start == |text| {
        offset := |text|;
        break;
      }
      var found, bad, next := ScanBracket(claimLike, text, start);
      ExtendsThen(text, 0, markers, start, found, next);
      ghost var after := MalformedFrom(claimLike, text, next);
      assert (malformed + bad) + after == malformed + (bad + after);
      markers, malformed, offset := markers + found, malformed + bad, next;
    }
    NothingLeft(claimLike, text, markers);
  }

  /** What stands at an opening bracket, and where the scan goes on. */
  method ScanBracket(claimLike: string -> bool, text: string, start: nat)
    returns (markers: seq<Marker>, malformed: seq<string>, next: nat)
    requires start < |text| && text[start] == '['
    ensures start < next <= |text|
    ensures Extends(text, start, markers, next)
    ensures MalformedFrom(claimLike, text, start) == malformed + MalformedFrom(claimLike, text, next)
  {
    hide Parse, MarkersFrom, IndexOf, Extends, MalformedFrom, MalformedAt, Spells;
    markers, malformed, next := [], [], start + 1;
    var end := IndexFrom(text, start + 1, ']');
    MalformedHere(claimLike, text, start);
    if end == |text| {
      var tail := text[start..];
      if claimLike(tail[1..]) {
        malformed := [tail];
      }
      NoBracketNoMarker(text, start);
    } else {
      var raw, inner := text[start..end + 1], text[start + 1..end];
      var parsed := Parse(claimLike, inner);
      StepAt(claimLike, text, start, end);
      if parsed.Parsed? {
        markers := [parsed.marker];
        NoneMalformed(claimLike, text, start + 1, end + 1);
        next := end + 1;
      } else if parsed.claimLike {
        malformed := [raw];
      }
    }
  }

  lemma MalformedHere(claimLike: string -> bool, text: string, i: nat)
    requires i < |text| && text[i] == '['
    ensures MalformedFrom(claimLike, text, i)
         == MalformedBracket(claimLike, text, i, IndexOf(text, i + 1, ']')) + MalformedFrom(claimLike, text, i + 1)
  {
    hide MalformedBracket, IndexOf;
  }

  lemma {:induction false} NoneMalformed(claimLike: string -> bool, text: string, i: nat, j: nat)
    requires i <= j <= |text| && '[' !in text[i..j]
    ensures MalformedFrom(claimLike, text, i) == MalformedFrom(claimLike, text, j)
    decreases j - i
  {
    hide MalformedBracket, IndexOf;
    if i < j {
      assert text[i..j][0] == text[i];
      assert text[i + 1..j] == text[i..j][1..];
      NoneMalformed(claimLike, text, i + 1, j);
    }
  }

  /** From `i` the text has the markers `found`, and then those from `j` on. */
  ghost predicate Extends(text: string, i: nat, found: seq<Marker>, j: nat) {
    forall rest :: MarkersFrom(text, j, rest) ==> MarkersFrom(text, i, found + rest)
  }

  lemma ExtendsThen(text: string, i: nat, found: seq<Marker>, j: nat, more: seq<Marker>, k: nat)
    requires Extends(text, i, found, j) && Extends(text, j, more, k)
    ensures Extends(text, i, found + more, k)
  {
    hide MarkersFrom;
    forall rest | MarkersFrom(text, k, rest)
      ensures MarkersFrom(text, i, (found + more) + rest)
    {
      assert (found + more) + rest == found + (more + rest);
    }
  }

  lemma ExtendsByNothing(text: string, i: nat, j: nat)
    requires forall rest :: MarkersFrom(text, j, rest) ==> MarkersFrom(text, i, rest)
    ensures Extends(text, i, [], j)
  {
    hide MarkersFrom;
    forall rest | MarkersFrom(text, j, rest)
      ensures MarkersFrom(text, i, [] + rest)
    {
      assert [] + rest == rest;
    }
  }

  lemma NothingScanned(text: string)
    ensures Extends(text, 0, [], 0)
  {
    ExtendsByNothing(text, 0, 0);
  }

  lemma NothingLeft(claimLike: string -> bool, text: string, markers: seq<Marker>)
    requires Extends(text, 0, markers, |text|)
    ensures MarkersFrom(text, 0, markers) && MalformedFrom(claimLike, text, |text|) == []
  {
    assert MarkersFrom(text, |text|, []);
    assert markers + [] == markers;
  }

  lemma SkipAll(text: string, i: nat, j: nat)
    requires i <= j <= |text| && '[' !in text[i..j]
    ensures Extends(text, i, [], j)
  {
    hide MarkersFrom;
    forall rest: seq<Marker>
      ensures MarkersFrom(text, j, rest) <==> MarkersFrom(text, i, rest)
    {
      SkipPlain(text, i, j, rest);
    }
    ExtendsByNothing(text, i, j);
  }

  /** Without a closing bracket there is no marker. */
  lemma NoBracketNoMarker(text: string, start: nat)
    requires start < |text| && ']' !in text[start + 1..]
    ensures Extends(text, start, [], start + 1)
  {
    hide Extends;
    forall j, m
      ensures !MarkerAt(text, start, j, m)
    {
      assert start < j < |text| ==> text[start + 1..][j - start - 1] == text[j];
    }
    ExtendsByNothing(text, start, start + 1);
  }

  /** What the text at a bracket contributes. */
  lemma StepAt(claimLike: string -> bool, text: string, start: nat, end: nat)
    requires start < end < |text| && text[start] == '[' && text[end] == ']' && ']' !in text[start + 1..end]
    ensures var p := Parse(claimLike, text[start + 1..end]);
      && (p.Parsed? ==> '[' !in text[start + 1..end + 1])
      && (p.Parsed? ==> Extends(text, start, [p.marker], end + 1))
      && (p.NotMarker? ==> Extends(text, start, [], start + 1))
  {
    hide Parse, Spells;
    var inner := text[start + 1..end];
    var p := Parse(claimLike, inner);
    forall j, m
      ensures MarkerAt(text, start, j, m) <==> j == end && p == Parsed(m)
    {
      FirstBracketDecides(claimLike, text, start, end, j, m);
    }
    if p.Parsed? {
      assert MarkerAt(text, start, end, p.marker);
      SpelledWithoutBrackets(inner, p.marker);
      assert text[start + 1..end + 1] == inner + [']'];
      SkipAll(text, start + 1, end + 1);
      forall rest | MarkersFrom(text, end + 1, rest)
        ensures MarkersFrom(text, start, [p.marker] + rest)
      {
        assert [] + rest == rest;
        assert ([p.marker] + rest)[1..] == rest && ([p.marker] + rest)[0] == p.marker;
      }
    } else {
      ExtendsByNothing(text, start, start + 1);
    }
  }
}
