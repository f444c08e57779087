/** The canonical text of a release manifest: one way to write each manifest, one way to read it. */
module CanonicalText {
  import opened Evidence
  import opened ReleaseContract

  const MAX_MANIFEST_BYTES: int := 0x10_0000

  datatype Option<T> = None | Some(value: T)

  // ---- The grammar of manifest values ---------------------------------------------

  predicate LowerAlpha(c: char) { 'a' <= c <= 'z' }

  predicate DecimalDigit(c: char) { '0' <= c <= '9' }

  predicate LowerHex(c: char) { DecimalDigit(c) || 'a' <= c <= 'f' }

  /** ^[a-z][a-z0-9-]*$ */
  predicate StableId(s: string) {
    s != "" && LowerAlpha(s[0]) && forall c <- s :: LowerAlpha(c) || DecimalDigit(c) || c == '-'
  }

  /** sha256 and 64 lowercase hexadecimal digits. */
  predicate Digest(s: string) {
    |s| == 71 && s[..7] == "sha256:" && forall c <- s[7..] :: LowerHex(c)
  }

  /** A prefix, a timestamp and 32 hexadecimal digits. */
  predicate AttemptId(prefix: string, s: string) {
    |s| == |prefix| + 53 && s[..|prefix|] == prefix
    && forall c <- s[|prefix|..] :: LowerHex(c) || c in "TZ.-"
  }

  /** The identity rules are (at least) these patterns. */
  ghost predicate Patterns(rules: Rules) {
    && (forall s :: rules.stableId(s) ==> StableId(s))
    && (forall s :: rules.digest(s) ==> Digest(s))
    && (forall s :: rules.evidenceId(s) ==> AttemptId("run-", s))
    && (forall s :: rules.runSetId(s) ==> AttemptId("set-", s))
  }

  /** What every value of a valid manifest looks like: empty, or a letter and then no space, quote or control. */
  predicate Word(s: string) {
    s != "" ==> LowerAlpha(s[0]) && s[|s| - 1] != ':' && forall c <- s :: '!' <= c <= '~' && c != '"'
  }

  // ---- Scalars --------------------------------------------------------------------

  function Lower(s: string): (r: string)
    ensures |r| == |s|
  {
    seq(|s|, i requires 0 <= i < |s| => if 'A' <= s[i] <= 'Z' then s[i] + (32 as char) else s[i])
  }

  const RESERVED: seq<string> :=
    ["null", "~", "true", "false", "yes", "no", "on", "off", ".nan", ".inf", "+.inf", "-.inf"]

  /** canonicalYAMLScalar. */
  function Scalar(value: string): string {
    if value == "" || Lower(value) in RESERVED then "\"" + value + "\"" else value
  }

  /** Read a scalar back. */
  function Unscalar(text: string): string {
    if |text| >= 2 && text[0] == '"' then text[1..|text| - 1] else text
  }

  lemma ScalarRoundTrip(value: string)
    requires Word(value)
    ensures Unscalar(Scalar(value)) == value
    ensures '\n' !in Scalar(value)
  {
  }

  // ---- How YAML 1.2.2 resolves a plain scalar (the core schema, section 10.3.2) ----------

  predicate Digits(s: string) {
    s != "" && forall c <- s :: DecimalDigit(c)
  }

  function Unsigned(s: string): string {
    if s != "" && s[0] in "-+" then s[1..] else s
  }

  predicate YamlNull(s: string) {
    s in ["", "null", "Null", "NULL", "~"]
  }

  predicate YamlBool(s: string) {
    s in ["true", "True", "TRUE", "false", "False", "FALSE"]
  }

  predicate YamlInt(s: string) {
    || Digits(Unsigned(s))
    || (|s| > 2 && s[..2] == "0o" && forall c <- s[2..] :: '0' <= c <= '7')
    || (|s| > 2 && s[..2] == "0x" && forall c <- s[2..] :: LowerHex(c) || 'A' <= c <= 'F')
  }

  predicate Mantissa(s: string) {
    || (s != "" && s[0] == '.' && Digits(s[1..]))
    || Digits(s)
    || exists i :: 0 < i < |s| && Digits(s[..i]) && s[i] == '.' && (s[i + 1..] == "" || Digits(s[i + 1..]))
  }

  predicate Exponent(s: string) {
    s == "" || (s[0] in "eE" && Digits(Unsigned(s[1..])))
  }

  predicate YamlFloat(s: string) {
    || Unsigned(s) in [".inf", ".Inf", ".INF"]
    || s in [".nan", ".NaN", ".NAN"]
    || exists k :: 0 <= k <= |Unsigned(s)| && Mantissa(Unsigned(s)[..k]) && Exponent(Unsigned(s)[k..])
  }

  /** A plain scalar that needs no quoting to keep its bytes. */
  predicate PlainSafe(s: string) {
    && s != "" && LowerAlpha(s[0]) && s[|s| - 1] != ':'
    && forall c <- s :: c != ' ' && c != '\n' && c != '\t' && c != '\r'
  }

  /** A manifest value that is written without quotes is a string to a YAML reader, byte for byte. */
  lemma UnquotedIsString(value: string)
    requires Word(value) && Scalar(value) == value
    ensures PlainSafe(value)
    ensures !YamlNull(value) && !YamlBool(value) && !YamlInt(value) && !YamlFloat(value)
  {
    assert |Scalar(value)| == |value|;
    assert value != "" && Lower(value) !in RESERVED;
    assert LowerAlpha(value[0]) && Unsigned(value) == value;
    assert value[0] in value && (|value| > 2 ==> value[..2][0] == value[0]);
    NotReserved(value);
    forall k | 0 <= k <= |value|
      ensures !(Mantissa(value[..k]) && Exponent(value[k..]))
    {
      if k > 0 {
        LetterIsNoMantissa(value[..k]);
      }
    }
  }

  lemma LetterIsNoMantissa(s: string)
    requires s != "" && LowerAlpha(s[0])
    ensures !Mantissa(s)
  {
    assert s[0] in s;
    forall i | 0 < i < |s|
      ensures !Digits(s[..i])
    {
      assert s[..i][0] in s[..i];
    }
  }

  lemma NotReserved(value: string)
    requires value != "" && LowerAlpha(value[0]) && Lower(value) !in RESERVED
    ensures !YamlNull(value) && !YamlBool(value)
  {
    assert Lower("null") == "null" && Lower("true") == "true" && Lower("false") == "false";
  }

  // ---- Lines ------------------------------------------------------------------------

  /** One line of text: what precedes the value, and the value as a scalar. */
  function Line(prefix: string, value: string): string {
    prefix + Scalar(value) + "\n"
  }

  function Lines(prefixes: seq<string>, values: seq<string>): string
    requires |prefixes| == |values|
  {
    if prefixes == [] then "" else Line(prefixes[0], values[0]) + Lines(prefixes[1..], values[1..])
  }

  function LineLength(s: string): (n: nat)
    ensures n <= |s|
  {
    if s == "" || s[0] == '\n' then 0 else 1 + LineLength(s[1..])
  }

  lemma {:induction false} LineEnds(a: string, rest: string)
    requires '\n' !in a
    ensures LineLength(a + "\n" + rest) == |a|
  {
    if a != "" {
      assert (a + "\n" + rest)[1..] == a[1..] + "\n" + rest;
      assert '\n' !in a[1..];
      LineEnds(a[1..], rest);
    }
  }

  /** Read one line that starts with `prefix`: its value, and the text after it. */
  function TakeLine(prefix: string, text: string): Option<(string, string)> {
    if |text| < |prefix| || text[..|prefix|] != prefix then None
    else
      var after := text[|prefix|..];
      var n := LineLength(after);
      if n == |after| then None else Some((Unscalar(after[..n]), after[n + 1..]))
  }

  lemma LineRoundTrip(prefix: string, value: string, rest: string)
    requires Word(value)
    ensures TakeLine(prefix, Line(prefix, value) + rest) == Some((value, rest))
  {
    hide Scalar, Unscalar, LineLength;
    ScalarRoundTrip(value);
    var text, scalar := Line(prefix, value) + rest, Scalar(value);
    assert text[..|prefix|] == prefix;
    var after := text[|prefix|..];
    assert after == scalar + "\n" + rest;
    LineEnds(scalar, rest);
    assert after[..|scalar|] == scalar && after[|scalar| + 1..] == rest;
  }

  function TakeLines(prefixes: seq<string>, text: string): Option<(seq<string>, string)> {
    if prefixes == [] then Some(([], text))
    else
      match TakeLine(prefixes[0], text)
      case None => None
      case Some((value, rest)) =>
        match TakeLines(prefixes[1..], rest)
        case None => None
        case Some((values, end)) => Some(([value] + values, end))
  }

  lemma {:induction false} LinesRoundTrip(prefixes: seq<string>, values: seq<string>, rest: string)
    requires |prefixes| == |values| && forall v <- values :: Word(v)
    ensures TakeLines(prefixes, Lines(prefixes, values) + rest) == Some((values, rest))
  {
    hide Word, TakeLine, Line;
    if prefixes == [] {
      assert values == [] && Lines(prefixes, values) + rest == rest;
    } else {
      var more := Lines(prefixes[1..], values[1..]);
      assert Lines(prefixes, values) + rest == Line(prefixes[0], values[0]) + (more + rest);
      LineRoundTrip(prefixes[0], values[0], more + rest);
      LinesRoundTrip(prefixes[1..], values[1..], rest);
      assert values == [values[0]] + values[1..];
    }
  }

  // ---- Manifests ----------------------------------------------------------------------

  /** What writeYAMLField puts before a value. */
  function Prefix(name: string, indent: nat): string {
    seq(indent, _ => ' ') + name + ": "
  }

  const HEADER_PREFIXES: seq<string> := [Prefix("input_digest", 0), Prefix("profile", 0), Prefix("run_set_id", 0)]

  const SELECTION_PREFIXES: seq<string> := [
    "  - role: ", Prefix("lab_id", 4), Prefix("required_run_id", 4), Prefix("binding_id", 4), Prefix("claim_id", 4),
    Prefix("implementation_id", 4), Prefix("adapter_id", 4), Prefix("evidence_id", 4), Prefix("content_digest", 4)]

  const SELECTIONS: string := "selections:\n"

  function SelectionValues(s: Selection): (r: seq<string>)
    ensures |r| == 9
  {
    [s.role, s.cell.labId, s.cell.requiredRunId, s.cell.bindingId, s.cell.claimId,
     s.cell.implementationId, s.cell.adapterId, s.evidenceId, s.contentDigest]
  }

  function SelectionFrom(v: seq<string>): Selection
    requires |v| == 9
  {
    Selection(CellKey(v[1], v[2], v[3], v[4], v[5], v[6]), v[0], v[7], v[8])
  }

  function SelectionText(s: Selection): string {
    Lines(SELECTION_PREFIXES, SelectionValues(s))
  }

  function SelectionsText(s: seq<Selection>): string {
    if s == [] then "" else SelectionText(s[0]) + SelectionsText(s[1..])
  }

  /** %d of a schema version; a valid manifest has version 1. */
  function VersionText(version: int): string {
    if version == SCHEMA_VERSION then "1" else "?"
  }

  function Text(m: Manifest): string {
    "schema_version: " + VersionText(m.schemaVersion) + "\n"
    + Lines(HEADER_PREFIXES, [m.inputDigest, m.profile, m.runSetId])
    + SELECTIONS + SelectionsText(m.selections)
  }

  function TakeLines9(text: string): (r: Option<(seq<string>, string)>)
    ensures r.Some? ==> |r.value.0| == 9 && |r.value.1| < |text|
  {
    hide TakeLine;
    LinesTaken(SELECTION_PREFIXES, text);
    TakeLines(SELECTION_PREFIXES, text)
  }

  lemma {:induction false} LinesTaken(prefixes: seq<string>, text: string)
    ensures TakeLines(prefixes, text).Some? ==>
      var (values, rest) := TakeLines(prefixes, text).value;
      |values| == |prefixes| && |rest| + |prefixes| <= |text|
  {
    if prefixes != [] && TakeLine(prefixes[0], text).Some? {
      LinesTaken(prefixes[1..], TakeLine(prefixes[0], text).value.1);
    }
  }

  function TakeSelections(text: string): Option<seq<Selection>>
    decreases |text|
  {
    if text == "" then Some([])
    else
      match TakeLines9(text)
      case None => None
      case Some((values, rest)) =>
        match TakeSelections(rest)
        case None => None
        case Some(more) => Some([SelectionFrom(values)] + more)
  }

  const VERSION_LINE: string := "schema_version: 1\n"

  /** A line parser for canonical manifests. */
  function Parse(text: string): Option<Manifest> {
    var v := |VERSION_LINE|;
    if |text| < v || text[..v] != VERSION_LINE then None
    else
      match TakeLines(HEADER_PREFIXES, text[v..])
      case None => None
      case Some((values, rest)) =>
        if |values| != 3 || |rest| < |SELECTIONS| || rest[..|SELECTIONS|] != SELECTIONS then None
        else
          match TakeSelections(rest[|SELECTIONS|..])
          case None => None
          case Some(selections) => Some(Manifest(SCHEMA_VERSION, values[0], values[1], values[2], selections))
  }

  lemma ValidValuesAreWords(rules: Rules, m: Manifest)
    requires Patterns(rules) && ValidManifest(rules, m)
    ensures m.schemaVersion == SCHEMA_VERSION && Word(m.inputDigest) && Word(m.profile) && Word(m.runSetId)
    ensures forall s <- m.selections :: forall v <- SelectionValues(s) :: Word(v)
  {
    hide SelectionFits, Word, StableId, Digest, AttemptId;
    DigestIsWord(m.inputDigest);
    AttemptIsWord("set-", m.runSetId);
    ProfileIsWord(m.profile);
    forall s, v | s in m.selections && v in SelectionValues(s)
      ensures Word(v)
    {
      var k :| 0 <= k < |m.selections| && m.selections[k] == s;
      FitsIsValid(rules, m.selections, k);
      SelectionIsWords(rules, s, v);
    }
  }

  lemma FitsIsValid(rules: Rules, s: seq<Selection>, k: int)
    requires 0 <= k < |s| && SelectionFits(rules, s, k)
    ensures ValidSelection(rules, s[k])
  {
  }

  lemma SelectionIsWords(rules: Rules, s: Selection, v: string)
    requires Patterns(rules) && ValidSelection(rules, s) && v in SelectionValues(s)
    ensures Word(v)
  {
    hide Word, StableId, Digest, AttemptId;
    DigestIsWord(s.contentDigest);
    AttemptIsWord("run-", s.evidenceId);
    RoleIsWord(s.role);
    StableIsWord(v);
  }

  lemma StableIsWord(s: string)
    ensures StableId(s) || s == "" ==> Word(s)
  {
    assert s != "" ==> s[|s| - 1] in s;
  }

  lemma DigestIsWord(s: string)
    ensures Digest(s) ==> Word(s)
  {
    if Digest(s) {
      assert s == "sha256:" + s[7..] && s[|s| - 1] in s[7..];
    }
  }

  lemma AttemptIsWord(prefix: string, s: string)
    requires prefix == "run-" || prefix == "set-"
    ensures AttemptId(prefix, s) ==> Word(s)
  {
    if AttemptId(prefix, s) {
      assert s == prefix + s[4..] && s[|s| - 1] in s[4..];
    }
  }

  lemma ProfileIsWord(s: string)
    ensures ValidProfile(s) ==> Word(s)
  {
  }

  lemma RoleIsWord(s: string)
    ensures s in ["baseline", "variant", "adapter"] ==> Word(s)
  {
  }

  lemma SelectionRoundTrip(s: Selection, rest: string)
    requires forall v <- SelectionValues(s) :: Word(v)
    ensures TakeLines9(SelectionText(s) + rest) == Some((SelectionValues(s), rest))
    ensures SelectionFrom(SelectionValues(s)) == s
    ensures SelectionText(s) != ""
  {
    hide Lines, TakeLines, Word;
    LinesRoundTrip(SELECTION_PREFIXES, SelectionValues(s), rest);
  }

  lemma {:induction false} SelectionsRoundTrip(s: seq<Selection>)
    requires forall x <- s :: forall v <- SelectionValues(x) :: Word(v)
    ensures TakeSelections(SelectionsText(s)) == Some(s)
  {
    hide SelectionText, TakeLines9, Word;
    if s != [] {
      assert s[0] in s;
      SelectionRoundTrip(s[0], SelectionsText(s[1..]));
      SelectionsRoundTrip(s[1..]);
      assert s == [s[0]] + s[1..];
    }
  }

  /** Reading the canonical text of a valid manifest gives that manifest back. */
  lemma TextRoundTrip(rules: Rules, m: Manifest)
    requires Patterns(rules) && ValidManifest(rules, m)
    ensures Parse(Text(m)) == Some(m)
  {
    hide Patterns, ValidManifest, Lines, TakeLines, Word, SelectionsText, TakeSelections;
    ValidValuesAreWords(rules, m);
    var values := [m.inputDigest, m.profile, m.runSetId];
    var tail := SELECTIONS + SelectionsText(m.selections);
    var text, v := Text(m), |VERSION_LINE|;
    assert "schema_version: " + "1" + "\n" == VERSION_LINE;
    assert text == VERSION_LINE + (Lines(HEADER_PREFIXES, values) + tail);
    assert text[..v] == VERSION_LINE && text[v..] == Lines(HEADER_PREFIXES, values) + tail;
    LinesRoundTrip(HEADER_PREFIXES, values, tail);
    assert tail[..|SELECTIONS|] == SELECTIONS && tail[|SELECTIONS|..] == SelectionsText(m.selections);
    SelectionsRoundTrip(m.selections);
  }

  /** Two valid manifests with the same text are the same manifest. */
  lemma TextIsInjective(rules: Rules, m: Manifest, n: Manifest)
    requires Patterns(rules) && ValidManifest(rules, m) && ValidManifest(rules, n)
    ensures Text(m) == Text(n) <==> m == n
  {
    hide Text, Parse, ValidManifest, Patterns;
    TextRoundTrip(rules, m);
    TextRoundTrip(rules, n);
  }

  // ---- The text spelled out ------------------------------------------------------------------

  lemma HeaderNames()
    ensures Prefix("input_digest", 0) == "input_digest: " && Prefix("profile", 0) == "profile: "
    ensures Prefix("run_set_id", 0) == "run_set_id: "
  {
  }

  lemma CellNames()
    ensures Prefix("lab_id", 4) == "    lab_id: " && Prefix("required_run_id", 4) == "    required_run_id: "
    ensures Prefix("binding_id", 4) == "    binding_id: " && Prefix("claim_id", 4) == "    claim_id: "
  {
  }

  lemma ReferenceNames()
    ensures Prefix("implementation_id", 4) == "    implementation_id: " && Prefix("adapter_id", 4) == "    adapter_id: "
    ensures Prefix("evidence_id", 4) == "    evidence_id: " && Prefix("content_digest", 4) == "    content_digest: "
  {
  }

  lemma UpTo(p: seq<string>, v: seq<string>, k: nat)
    requires |p| == |v| && k < |p|
    ensures Lines(p[..k + 1], v[..k + 1]) == if k == 0 then Line(p[k], v[k]) else Lines(p[..k], v[..k]) + Line(p[k], v[k])
    ensures p[..|p|] == p && v[..|v|] == v
  {
    hide Line;
    LinesSnoc(p[..k + 1], v[..k + 1]);
    assert p[..k + 1][..k] == p[..k] && v[..k + 1][..k] == v[..k];
  }

  lemma ThreeLines(p: seq<string>, v: seq<string>)
    requires |p| == |v| == 3
    ensures Lines(p, v) == Line(p[0], v[0]) + Line(p[1], v[1]) + Line(p[2], v[2])
  {
    hide Line, Lines;
    UpTo(p, v, 0);
    UpTo(p, v, 1);
    UpTo(p, v, 2);
  }

  lemma FiveLines(p: seq<string>, v: seq<string>)
    requires |p| == |v| >= 5
    ensures Lines(p[..5], v[..5]) == Line(p[0], v[0]) + Line(p[1], v[1]) + Line(p[2], v[2]) + Line(p[3], v[3]) + Line(p[4], v[4])
  {
    hide Line, Lines;
    UpTo(p, v, 0);
    UpTo(p, v, 1);
    UpTo(p, v, 2);
    UpTo(p, v, 3);
    UpTo(p, v, 4);
  }

  lemma NineLines(p: seq<string>, v: seq<string>)
    requires |p| == |v| == 9
    ensures Lines(p, v)
         == Line(p[0], v[0]) + Line(p[1], v[1]) + Line(p[2], v[2]) + Line(p[3], v[3]) + Line(p[4], v[4])
            + Line(p[5], v[5]) + Line(p[6], v[6]) + Line(p[7], v[7]) + Line(p[8], v[8])
  {
    hide Line, Lines;
    FiveLines(p, v);
    UpTo(p, v, 5);
    UpTo(p, v, 6);
    UpTo(p, v, 7);
    UpTo(p, v, 8);
  }

  /** Which field each value is written under. */
  lemma SelectionSpelled(s: Selection)
    ensures SelectionText(s)
         == Line("  - role: ", s.role) + Line("    lab_id: ", s.cell.labId) + Line("    required_run_id: ", s.cell.requiredRunId)
            + Line("    binding_id: ", s.cell.bindingId) + Line("    claim_id: ", s.cell.claimId)
            + Line("    implementation_id: ", s.cell.implementationId) + Line("    adapter_id: ", s.cell.adapterId)
            + Line("    evidence_id: ", s.evidenceId) + Line("    content_digest: ", s.contentDigest)
  {
    hide Line, Lines, Prefix;
    CellNames();
    ReferenceNames();
    NineLines(SELECTION_PREFIXES, SelectionValues(s));
  }

  lemma Unquoted(prefix: string, value: string)
    requires value != "" && Lower(value) !in RESERVED
    ensures Line(prefix, value) == prefix + value + "\n"
  {
  }

  lemma LongIsUnreserved(value: string)
    requires |value| > 5
    ensures Lower(value) !in RESERVED
  {
  }

  lemma ShortIsUnreserved()
    ensures Lower("lab") !in RESERVED && Lower("deep") !in RESERVED && Lower("claim") !in RESERVED
  {
    assert Lower("lab")[0] == 'l' && Lower("deep")[0] == 'd' && Lower("claim")[0] == 'c';
  }

  lemma GoldenSelection(id: string, content: string)
    requires |id| > 5 && |content| > 5
    ensures
      var cell := CellKey("lab", "required-run", "binding", "claim", "implementation", "");
      SelectionText(Selection(cell, "baseline", id, content))
      == ("  - role: " + "baseline" + "\n") + ("    lab_id: " + "lab" + "\n")
         + ("    required_run_id: " + "required-run" + "\n") + ("    binding_id: " + "binding" + "\n")
         + ("    claim_id: " + "claim" + "\n") + ("    implementation_id: " + "implementation" + "\n")
         + ("    adapter_id: " + "\"\"" + "\n") + ("    evidence_id: " + id + "\n")
         + ("    content_digest: " + content + "\n")
  {
    hide Line, Lower, SelectionText;
    var cell := CellKey("lab", "required-run", "binding", "claim", "implementation", "");
    SelectionSpelled(Selection(cell, "baseline", id, content));
    ShortIsUnreserved();
    LongIsUnreserved("baseline");
    Unquoted("  - role: ", "baseline");
    Unquoted("    lab_id: ", "lab");
    LongIsUnreserved("required-run");
    Unquoted("    required_run_id: ", "required-run");
    LongIsUnreserved("binding");
    Unquoted("    binding_id: ", "binding");
    Unquoted("    claim_id: ", "claim");
    LongIsUnreserved("implementation");
    Unquoted("    implementation_id: ", "implementation");
    EmptyIsQuoted("    adapter_id: ");
    LongIsUnreserved(id);
    Unquoted("    evidence_id: ", id);
    LongIsUnreserved(content);
    Unquoted("    content_digest: ", content);
  }

  lemma EmptyIsQuoted(prefix: string)
    ensures Line(prefix, "") == prefix + "\"\"" + "\n"
  {
  }

  lemma GoldenHeader(digest: string, runSet: string)
    requires |digest| > 5 && |runSet| > 5
    ensures Lines(HEADER_PREFIXES, [digest, "deep", runSet])
         == ("input_digest: " + digest + "\n") + ("profile: " + "deep" + "\n") + ("run_set_id: " + runSet + "\n")
  {
    hide Line, Lower, Lines, Prefix;
    ThreeLines(HEADER_PREFIXES, [digest, "deep", runSet]);
    HeaderNames();
    ShortIsUnreserved();
    LongIsUnreserved(digest);
    LongIsUnreserved(runSet);
    Unquoted("input_digest: ", digest);
    Unquoted("profile: ", "deep");
    Unquoted("run_set_id: ", runSet);
  }

  /** The manifest with one selection that documents the format, byte for byte. */
  lemma GoldenText(digest: string, runSet: string, id: string, content: string)
    requires Digest(digest) && AttemptId("set-", runSet) && AttemptId("run-", id) && Digest(content)
    ensures
      var cell := CellKey("lab", "required-run", "binding", "claim", "implementation", "");
      Text(Manifest(1, digest, "deep", runSet, [Selection(cell, "baseline", id, content)]))
      == "schema_version: 1\n"
         + (("input_digest: " + digest + "\n") + ("profile: " + "deep" + "\n") + ("run_set_id: " + runSet + "\n"))
         + "selections:\n"
         + (("  - role: " + "baseline" + "\n") + ("    lab_id: " + "lab" + "\n")
            + ("    required_run_id: " + "required-run" + "\n") + ("    binding_id: " + "binding" + "\n")
            + ("    claim_id: " + "claim" + "\n") + ("    implementation_id: " + "implementation" + "\n")
            + ("    adapter_id: " + "\"\"" + "\n") + ("    evidence_id: " + id + "\n")
            + ("    content_digest: " + content + "\n"))
  {
    hide SelectionText, Lines, Lower;
    var cell := CellKey("lab", "required-run", "binding", "claim", "implementation", "");
    var selection := Selection(cell, "baseline", id, content);
    GoldenHeader(digest, runSet);
    GoldenSelection(id, content);
    OneSelection(selection);
    VersionSpelled();
  }

  lemma OneSelection(s: Selection)
    ensures SelectionsText([s]) == SelectionText(s)
  {
    hide SelectionText;
    var one := [s];
    assert one[1..] == [];
  }

  lemma VersionSpelled()
    ensures "schema_version: " + VersionText(1) + "\n" == "schema_version: 1\n"
  {
  }

  // ---- Encoding and decoding -------------------------------------------------------------

  datatype Encoded = Encoded(text: string) | Refused

  /** writeYAMLField. */
  method WriteYamlField(builder: string, name: string, value: string, indent: nat) returns (r: string)
    ensures r == builder + Line(Prefix(name, indent), value)
  {
    r := builder + seq(indent, _ => ' ');
    r := r + name;
    r := r + ": ";
    r := r + Scalar(value);
    r := r + "\n";
  }

  lemma {:induction false} LinesSnoc(p: seq<string>, v: seq<string>)
    requires |p| == |v| > 0
    ensures var n := |p| - 1; Lines(p, v) == Lines(p[..n], v[..n]) + Line(p[n], v[n])
  {
    hide Line;
    var n := |p| - 1;
    if n > 0 {
      LinesSnoc(p[1..], v[1..]);
      assert p[1..][..n - 1] == p[..n][1..] && v[1..][..n - 1] == v[..n][1..];
    }
  }

  /** One more line after the first `k`. */
  lemma OneMoreLine(builder: string, p: seq<string>, v: seq<string>, k: nat)
    requires |p| == |v| && k < |p|
    ensures builder + Lines(p[..k], v[..k]) + Line(p[k], v[k]) == builder + Lines(p[..k + 1], v[..k + 1])
    ensures builder + Lines(p[..0], v[..0]) == builder
    ensures p[..|p|] == p && v[..|v|] == v
  {
    hide Line;
    LinesSnoc(p[..k + 1], v[..k + 1]);
    assert p[..k + 1][..k] == p[..k] && v[..k + 1][..k] == v[..k];
  }

  method WriteSelection(builder: string, s: Selection) returns (r: string)
    ensures r == builder + SelectionText(s)
  {
    hide Line, Lines, Prefix, Scalar;
    ghost var p, v := SELECTION_PREFIXES, SelectionValues(s);
    OneMoreLine(builder, p, v, 0);
    r := WriteRole(builder, s.role);
    OneMoreLine(builder, p, v, 1);
    r := WriteYamlField(r, "lab_id", s.cell.labId, 4);
    OneMoreLine(builder, p, v, 2);
    r := WriteYamlField(r, "required_run_id", s.cell.requiredRunId, 4);
    OneMoreLine(builder, p, v, 3);
    r := WriteYamlField(r, "binding_id", s.cell.bindingId, 4);
    OneMoreLine(builder, p, v, 4);
    r := WriteYamlField(r, "claim_id", s.cell.claimId, 4);
    OneMoreLine(builder, p, v, 5);
    r := WriteYamlField(r, "implementation_id", s.cell.implementationId, 4);
    OneMoreLine(builder, p, v, 6);
    r := WriteYamlField(r, "adapter_id", s.cell.adapterId, 4);
    OneMoreLine(builder, p, v, 7);
    r := WriteYamlField(r, "evidence_id", s.evidenceId, 4);
    OneMoreLine(builder, p, v, 8);
    r := WriteYamlField(r, "content_digest", s.contentDigest, 4);
  }

  method WriteRole(builder: string, role: string) returns (r: string)
    ensures r == builder + Line("  - role: ", role)
  {
    r := builder + "  - role: ";
    r := r + Scalar(role);
    r := r + "\n";
  }

  /** Encode: the canonical text of a valid manifest, and nothing for any other. */
  method Encode(rules: Rules, m: Manifest) returns (r: Encoded)
    ensures r.Encoded? <==> ValidManifest(rules, m)
    ensures r.Encoded? ==> r.text == Text(m)
  {
    hide ValidManifest, SelectionText, Line, Lines, Prefix;
    var valid := ValidateManifest(rules, m);
    if !valid {
      return Refused;
    }
    var builder := "schema_version: " + VersionText(m.schemaVersion) + "\n";
    ghost var start, p, v := builder, HEADER_PREFIXES, [m.inputDigest, m.profile, m.runSetId];
    OneMoreLine(start, p, v, 0);
    builder := WriteYamlField(builder, "input_digest", m.inputDigest, 0);
    OneMoreLine(start, p, v, 1);
    builder := WriteYamlField(builder, "profile", m.profile, 0);
    OneMoreLine(start, p, v, 2);
    builder := WriteYamlField(builder, "run_set_id", m.runSetId, 0);
    builder := builder + SELECTIONS;
    ghost var header := builder;
    for i := 0 to |m.selections|
      invariant builder + SelectionsText(m.selections[i..]) == header + SelectionsText(m.selections)
    {
      assert m.selections[i..][0] == m.selections[i] && m.selections[i..][1..] == m.selections[i + 1..];
      ghost var rest := SelectionsText(m.selections[i + 1..]);
      assert builder + SelectionText(m.selections[i]) + rest == builder + (SelectionText(m.selections[i]) + rest);
      builder := WriteSelection(builder, m.selections[i]);
    }
    r := Encoded(builder);
  }

  datatype Decoded = Decoded(manifest: Manifest) | TooLarge | Invalid | NonCanonical

  /**
   Decode around any YAML reader: whatever it accepts is the canonical text of what it
   returns, and canonical text that the reader understands is accepted.
   */
  method Decode(rules: Rules, yaml: string -> Option<Manifest>, data: string) returns (r: Decoded)
    ensures r.Decoded? ==> ValidManifest(rules, r.manifest) && data == Text(r.manifest)
    ensures r.Decoded? <==>
      && |data| <= MAX_MANIFEST_BYTES && yaml(data).Some?
      && ValidManifest(rules, yaml(data).value) && data == Text(yaml(data).value)
    ensures r.TooLarge? <==> |data| > MAX_MANIFEST_BYTES
    ensures r.NonCanonical? <==>
      && |data| <= MAX_MANIFEST_BYTES && yaml(data).Some?
      && ValidManifest(rules, yaml(data).value) && data != Text(yaml(data).value)
  {
    hide ValidManifest, Text;
    if |data| > MAX_MANIFEST_BYTES {
      return TooLarge;
    }
    var read := yaml(data);
    if read.None? {
      return Invalid;
    }
    var valid := ValidateManifest(rules, read.value);
    if !valid {
      return Invalid;
    }
    var canonical := Encode(rules, read.value);
    if canonical.Refused? {
      assert false;
    }
    if data != canonical.text {
      return NonCanonical;
    }
    r := Decoded(read.value);
  }

  /** No two accepted texts mean the same manifest, and no text means two. */
  lemma AcceptedTextsAreUnique(rules: Rules, m: Manifest, n: Manifest, a: string, b: string)
    requires Patterns(rules) && ValidManifest(rules, m) && ValidManifest(rules, n)
    requires a == Text(m) && b == Text(n)
    ensures a == b <==> m == n
    ensures Parse(a) == Some(m)
  {
    hide Text, Parse, ValidManifest, Patterns;
    TextIsInjective(rules, m, n);
    TextRoundTrip(rules, m);
  }
}
