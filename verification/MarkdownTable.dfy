/**
 Table cells of the Markdown report: escaping every value into a cell, printing a row of
 cells, and splitting the row back at its unescaped pipes.
 */
module MarkdownTable {

  // ---- Escaping -----------------------------------------------------------------------

  /** strings.ReplaceAll of CR LF by LF, then of CR by LF. */
  function NormalizeNewlines(s: string): string {
    if s == "" then ""
    else if s[0] == '\r' then "\n" + NormalizeNewlines(if |s| > 1 && s[1] == '\n' then s[2..] else s[1..])
    else [s[0]] + NormalizeNewlines(s[1..])
  }

  function HexDigit(n: nat): char
    requires n < 16
  {
    if n < 10 then (n as char) + '0' else ((n - 10) as char) + 'A'
  }

  predicate Control(c: char) {
    c < ' ' || c == '\U{7F}'
  }

  function EscapeRune(c: char): (r: string)
  {
    if c == '&' then "&amp;"
    else if c == '\\' then "\\\\"
    else if c == '|' then "\\|"
    else if c == '\n' then "<br>"
    else if c == '\t' then "\\t"
    else if Control(c) then "\\u00" + [HexDigit(c as nat / 16), HexDigit(c as nat % 16)]
    else [c]
  }

  function EscapeAll(s: string): string {
    if s == "" then "" else EscapeRune(s[0]) + EscapeAll(s[1..])
  }

  /** escapeMarkdownTableCell. */
  function EscapedCell(value: string): string {
    EscapeAll(NormalizeNewlines(value))
  }

  method ReplaceNewlines(value: string) returns (r: string)
    ensures r == NormalizeNewlines(value)
  {
    hide NormalizeNewlines;
    r := "";
    var rest := value;
    while rest != ""
      invariant r + NormalizeNewlines(rest) == NormalizeNewlines(value)
      decreases |rest|
    {
      NextRune(r, rest);
      if rest[0] == '\r' {
        r := r + "\n";
        rest := if |rest| > 1 && rest[1] == '\n' then rest[2..] else rest[1..];
      } else {
        r := r + [rest[0]];
        rest := rest[1..];
      }
    }
    NothingToNormalize();
  }

  lemma NextRune(r: string, rest: string)
    requires rest != ""
    ensures r + NormalizeNewlines(rest) ==
      if rest[0] == '\r' then r + "\n" + NormalizeNewlines(if |rest| > 1 && rest[1] == '\n' then rest[2..] else rest[1..])
      else r + [rest[0]] + NormalizeNewlines(rest[1..])
  {
  }

  lemma NothingToNormalize()
    ensures NormalizeNewlines("") == ""
  {
  }

  method EscapeMarkdownTableCell(source: string) returns (escaped: string)
    ensures escaped == EscapedCell(source)
  {
    hide EscapeRune, NormalizeNewlines;
    var value := ReplaceNewlines(source);
    escaped := "";
    while |value| != 0
      invariant escaped + EscapeAll(value) == EscapedCell(source)
      decreases |value|
    {
      var r := value[0];
      assert escaped + EscapeAll(value) == (escaped + EscapeRune(r)) + EscapeAll(value[1..]);
      value := value[1..];
      escaped := escaped + EscapeRune(r);
    }
  }

  // ---- Reading a row ---------------------------------------------------------------------

  /** After `s`, is the next character escaped? A backslash that is not itself escaped escapes. */
  function Pending(s: string, escaped: bool): bool {
    if s == "" then escaped else Pending(s[1..], s[0] == '\\' && !escaped)
  }

  /** No pipe of `s` is unescaped. */
  predicate NoBarePipe(s: string, escaped: bool) {
    s != "" ==> (s[0] == '|' ==> escaped) && NoBarePipe(s[1..], s[0] == '\\' && !escaped)
  }

  /** Split at the unescaped pipes. */
  function SplitPipes(s: string, escaped: bool): (parts: seq<string>)
    ensures parts != []
  {
    if s == "" then [""]
    else
      var rest := SplitPipes(s[1..], s[0] == '\\' && !escaped);
      if s[0] == '|' && !escaped then [""] + rest else [[s[0]] + rest[0]] + rest[1..]
  }

  /** Text that can stand inside a cell: no bare pipe, and what follows it is unescaped. */
  ghost predicate Sealed(s: string) {
    NoBarePipe(s, false) && !Pending(s, false)
  }

  lemma {:induction false} PendingAppend(a: string, b: string, escaped: bool)
    ensures Pending(a + b, escaped) == Pending(b, Pending(a, escaped))
    ensures NoBarePipe(a + b, escaped) <==> NoBarePipe(a, escaped) && NoBarePipe(b, Pending(a, escaped))
  {
    if a == "" {
      assert a + b == b;
    } else {
      assert (a + b)[1..] == a[1..] + b;
      PendingAppend(a[1..], b, a[0] == '\\' && !escaped);
    }
  }

  lemma SealedAppend(a: string, b: string)
    requires Sealed(a) && Sealed(b)
    ensures Sealed(a + b)
  {
    PendingAppend(a, b, false);
  }

  lemma RuneIsSealed(c: char)
    ensures Sealed(EscapeRune(c))
    ensures forall x <- EscapeRune(c) :: !Control(x)
  {
    var r := EscapeRune(c);
    if c == '\\' || c == '|' || c == '\t' {
      EscapedPairIsSealed(r[1]);
      assert r == "\\" + [r[1]];
    } else if Control(c) && c != '\n' {
      var digits := "00" + [HexDigit(c as nat / 16), HexDigit(c as nat % 16)];
      EscapedPairIsSealed('u');
      OrdinaryIsSealed(digits);
      SealedAppend("\\" + ['u'], digits);
      assert r == "\\" + ['u'] + digits;
    } else {
      OrdinaryIsSealed(r);
    }
  }

  lemma EscapedPairIsSealed(x: char)
    ensures Sealed("\\" + [x])
  {
    var s := "\\" + [x];
    assert s[1..] == [x] && [x][1..] == "";
    assert !Pending([x], true) && NoBarePipe([x], true);
  }

  lemma {:induction false} OrdinaryIsSealed(s: string)
    requires '|' !in s && '\\' !in s
    ensures Sealed(s)
  {
    if s != "" {
      OrdinaryIsSealed(s[1..]);
    }
  }

  /** An escaped cell holds no bare pipe, no dangling backslash and no control character. */
  lemma {:induction false} EscapedIsSealed(s: string)
    ensures Sealed(EscapeAll(s))
    ensures forall x <- EscapeAll(s) :: !Control(x)
  {
    hide EscapeRune, Sealed, Control;
    if s == "" {
      OrdinaryIsSealed("");
    } else {
      EscapedIsSealed(s[1..]);
      RuneIsSealed(s[0]);
      SealedAppend(EscapeRune(s[0]), EscapeAll(s[1..]));
    }
  }

  // ---- Runs of backslashes -----------------------------------------------------------------

  /** How many backslashes stand directly before position `i`. */
  function Backslashes(s: string, i: nat): nat
    requires i <= |s|
  {
    if i > 0 && s[i - 1] == '\\' then 1 + Backslashes(s, i - 1) else 0
  }

  /** A character is escaped exactly when an odd run of backslashes precedes it. */
  lemma {:induction false} PendingIsOdd(s: string, i: nat)
    requires i <= |s|
    ensures Pending(s[..i], false) <==> Backslashes(s, i) % 2 == 1
  {
    if i > 0 {
      PendingIsOdd(s, i - 1);
      PendingAppend(s[..i - 1], [s[i - 1]], false);
      assert s[..i] == s[..i - 1] + [s[i - 1]];
    }
  }

  lemma {:induction false} BarePipeFree(s: string, i: nat)
    requires i < |s| && NoBarePipe(s, false)
    ensures s[i] == '|' ==> Pending(s[..i], false)
  {
    assert s == s[..i] + ([s[i]] + s[i + 1..]);
    PendingAppend(s[..i], [s[i]] + s[i + 1..], false);
  }

  /** In an escaped cell every pipe follows an odd run of backslashes, and no CR or LF survives. */
  lemma EscapedPipes(value: string, i: nat)
    requires i < |EscapedCell(value)|
    ensures EscapedCell(value)[i] == '|' ==> Backslashes(EscapedCell(value), i) % 2 == 1
    ensures EscapedCell(value)[i] != '\r' && EscapedCell(value)[i] != '\n'
  {
    var s := EscapedCell(value);
    EscapedIsSealed(NormalizeNewlines(value));
    BarePipeFree(s, i);
    PendingIsOdd(s, i);
    assert s[i] in s && !Control(s[i]);
  }

  // ---- Reading a cell back -------------------------------------------------------------------

  function HexValue(c: char): nat {
    if '0' <= c <= '9' then (c - '0') as nat else if 'A' <= c <= 'F' then (c - 'A') as nat + 10 else 0
  }

  /** The text that a cell shows, with its line breaks as they are written. */
  function ReadCell(cell: string): string {
    if cell == "" then ""
    else if |cell| >= 5 && cell[..5] == "&amp;" then "&" + ReadCell(cell[5..])
    else if |cell| >= 6 && cell[..4] == "\\u00" then
      [(16 * HexValue(cell[4]) + HexValue(cell[5])) as char] + ReadCell(cell[6..])
    else if |cell| >= 2 && cell[0] == '\\' then [if cell[1] == 't' then '\t' else cell[1]] + ReadCell(cell[2..])
    else [cell[0]] + ReadCell(cell[1..])
  }

  /** Every line feed written as a break. */
  function WithBreaks(s: string): string {
    if s == "" then "" else (if s[0] == '\n' then "<br>" else [s[0]]) + WithBreaks(s[1..])
  }

  lemma ReadOrdinary(c: char, rest: string)
    requires c != '&' && c != '\\'
    ensures ReadCell([c] + rest) == [c] + ReadCell(rest)
  {
    var cell := [c] + rest;
    assert cell[0] == c && cell[1..] == rest;
    assert |cell| >= 5 ==> cell[..5][0] == c;
    assert |cell| >= 4 ==> cell[..4][0] == c;
  }

  lemma ReadPair(c: char, rest: string)
    requires c == '\\' || c == '|' || c == 't'
    ensures ReadCell("\\" + [c] + rest) == [if c == 't' then '\t' else c] + ReadCell(rest)
  {
    var cell := "\\" + [c] + rest;
    assert cell[0] == '\\' && cell[1] == c && cell[2..] == rest;
    assert |cell| >= 5 ==> cell[..5][0] == '\\';
    assert |cell| >= 4 ==> cell[..4][1] == c;
  }

  lemma ReadControl(c: char, rest: string)
    requires Control(c)
    ensures ReadCell("\\u00" + [HexDigit(c as nat / 16), HexDigit(c as nat % 16)] + rest) == [c] + ReadCell(rest)
  {
    var high, low := HexDigit(c as nat / 16), HexDigit(c as nat % 16);
    var cell := "\\u00" + [high, low] + rest;
    assert cell[..4] == "\\u00" && cell[4] == high && cell[5] == low && cell[6..] == rest;
    assert cell[..5][0] == '\\';
    HexReads(c as nat / 16);
    HexReads(c as nat % 16);
    assert 16 * (c as nat / 16) + c as nat % 16 == c as nat;
  }

  lemma HexReads(n: nat)
    requires n < 16
    ensures HexValue(HexDigit(n)) == n
  {
  }

  lemma ReadBreak(rest: string)
    ensures ReadCell("<br>" + rest) == "<br>" + ReadCell(rest)
  {
    hide ReadCell;
    ReadOrdinary('>', rest);
    ReadOrdinary('r', ">" + rest);
    ReadOrdinary('b', "r" + (">" + rest));
    ReadOrdinary('<', "b" + ("r" + (">" + rest)));
    assert "<br>" + rest == "<" + ("b" + ("r" + (">" + rest)));
    assert "<br>" + ReadCell(rest) == "<" + ("b" + ("r" + (">" + ReadCell(rest))));
  }

  lemma ReadAmpersand(rest: string)
    ensures ReadCell("&amp;" + rest) == "&" + ReadCell(rest)
  {
    var cell := "&amp;" + rest;
    assert cell[..5] == "&amp;" && cell[5..] == rest;
  }

  lemma ReadRune(c: char, rest: string)
    ensures ReadCell(EscapeRune(c) + rest) == (if c == '\n' then "<br>" else [c]) + ReadCell(rest)
  {
    hide ReadCell;
    if c == '&' {
      ReadAmpersand(rest);
    } else if c == '\\' || c == '|' || c == '\t' {
      var shown := if c == '\t' then 't' else c;
      assert EscapeRune(c) == "\\" + [shown];
      ReadPair(shown, rest);
    } else if c == '\n' {
      ReadBreak(rest);
    } else if Control(c) {
      ReadControl(c, rest);
    } else {
      ReadOrdinary(c, rest);
    }
  }

  lemma {:induction false} ReadEscaped(s: string)
    ensures ReadCell(EscapeAll(s)) == WithBreaks(s)
  {
    hide EscapeRune;
    if s != "" {
      ReadRune(s[0], EscapeAll(s[1..]));
      ReadEscaped(s[1..]);
    }
  }

  lemma {:induction false} EscapedBreaks(s: string)
    ensures EscapeAll(WithBreaks(s)) == EscapeAll(s)
  {
    hide EscapeAll;
    if s != "" {
      var rest := WithBreaks(s[1..]);
      EscapedBreaks(s[1..]);
      assert s == [s[0]] + s[1..];
      EscapeMore(s[0], s[1..]);
      if s[0] == '\n' {
        EscapeBreak(rest);
      } else {
        EscapeMore(s[0], rest);
      }
    }
  }

  lemma EscapeBreak(rest: string)
    ensures EscapeAll("<br>" + rest) == EscapeRune('\n') + EscapeAll(rest)
  {
    hide EscapeAll;
    EscapeMore('>', rest);
    EscapeMore('r', ">" + rest);
    EscapeMore('b', "r" + (">" + rest));
    EscapeMore('<', "b" + ("r" + (">" + rest)));
    assert "<br>" + rest == "<" + ("b" + ("r" + (">" + rest)));
    assert "<br>" + EscapeAll(rest) == "<" + ("b" + ("r" + (">" + EscapeAll(rest))));
  }

  lemma EscapeMore(c: char, rest: string)
    ensures EscapeAll([c] + rest) == EscapeRune(c) + EscapeAll(rest)
  {
    assert ([c] + rest)[1..] == rest;
  }

  /**
   Two values are printed alike exactly when they are the same text up to how it ends its lines
   and up to writing a line break as `<br>`; everything else can be read back from the cell.
   */
  lemma CellTellsValue(a: string, b: string)
    ensures ReadCell(EscapedCell(a)) == WithBreaks(NormalizeNewlines(a))
    ensures EscapedCell(a) == EscapedCell(b) <==> WithBreaks(NormalizeNewlines(a)) == WithBreaks(NormalizeNewlines(b))
  {
    hide ReadCell, EscapeAll, WithBreaks, NormalizeNewlines;
    ReadEscaped(NormalizeNewlines(a));
    ReadEscaped(NormalizeNewlines(b));
    EscapedBreaks(NormalizeNewlines(a));
    EscapedBreaks(NormalizeNewlines(b));
  }

  /** A line break and the text `<br>` are printed alike. */
  lemma BreakCollides()
    ensures EscapedCell("\n") == EscapedCell("<br>")
  {
    hide EscapedCell;
    CellTellsValue("\n", "<br>");
    assert NormalizeNewlines("\n") == "\n";
    NoBreaks("<br>");
    assert WithBreaks("\n") == "<br>" + WithBreaks("");
  }

  lemma {:induction false} NoBreaks(s: string)
    requires '\n' !in s && '\r' !in s
    ensures WithBreaks(s) == s && NormalizeNewlines(s) == s
  {
    if s != "" {
      NoBreaks(s[1..]);
    }
  }

  // ---- Rows ----------------------------------------------------------------------------------

  /** Sealed text before an unescaped pipe is one part. */
  lemma {:induction false} SplitSealed(a: string, rest: string, escaped: bool)
    requires NoBarePipe(a, escaped) && !Pending(a, escaped)
    ensures SplitPipes(a + "|" + rest, escaped) == [a] + SplitPipes(rest, false)
  {
    var s := a + "|" + rest;
    if a == "" {
      assert s == "|" + rest && s[1..] == rest;
    } else {
      assert s[1..] == a[1..] + "|" + rest;
      SplitSealed(a[1..], rest, a[0] == '\\' && !escaped);
      assert a == [a[0]] + a[1..];
    }
  }

  lemma PaddedIsSealed(cell: string)
    requires Sealed(cell)
    ensures Sealed(" " + cell + " ")
  {
    OrdinaryIsSealed(" ");
    SealedAppend(" ", cell);
    SealedAppend(" " + cell, " ");
  }

  /** The row after its first pipe: each cell between spaces, and a pipe. */
  function RowTail(cells: seq<string>): string {
    if cells == [] then "" else " " + cells[0] + " " + "|" + RowTail(cells[1..])
  }

  function Padded(cells: seq<string>): seq<string> {
    seq(|cells|, i requires 0 <= i < |cells| => " " + cells[i] + " ")
  }

  lemma {:induction false} TailSplits(cells: seq<string>)
    requires forall c <- cells :: Sealed(c)
    ensures SplitPipes(RowTail(cells), false) == Padded(cells) + [""]
  {
    hide Sealed;
    if cells != [] {
      PaddedIsSealed(cells[0]);
      SplitSealed(" " + cells[0] + " ", RowTail(cells[1..]), false);
      TailSplits(cells[1..]);
      assert Padded(cells) == [" " + cells[0] + " "] + Padded(cells[1..]);
    }
  }

  /** strings.Join. */
  function Join(cells: seq<string>, separator: string): string {
    if cells == [] then "" else if |cells| == 1 then cells[0] else cells[0] + separator + Join(cells[1..], separator)
  }

  /** A table row as WriteMarkdown prints it. */
  function RowText(cells: seq<string>): string {
    "| " + Join(cells, " | ") + " |"
  }

  lemma {:induction false} RowIsTail(cells: seq<string>)
    requires cells != []
    ensures " " + Join(cells, " | ") + " |" == RowTail(cells)
  {
    if |cells| == 1 {
      assert RowTail(cells[1..]) == "";
    } else {
      RowIsTail(cells[1..]);
      var rest := Join(cells[1..], " | ");
      assert " " + (cells[0] + " | " + rest) + " |" == " " + cells[0] + " " + "|" + (" " + rest + " |");
    }
  }

  function EscapedCells(values: seq<string>): seq<string> {
    seq(|values|, i requires 0 <= i < |values| => EscapedCell(values[i]))
  }

  /** The escaping loop and the join of one row. */
  method WriteRow(values: seq<string>) returns (line: string)
    ensures line == RowText(EscapedCells(values))
  {
    var cells := values;
    for index := 0 to |cells|
      invariant |cells| == |values|
      invariant forall k :: 0 <= k < index ==> cells[k] == EscapedCell(values[k])
      invariant forall k :: index <= k < |cells| ==> cells[k] == values[k]
    {
      var escaped := EscapeMarkdownTableCell(cells[index]);
      cells := cells[index := escaped];
    }
    assert cells == EscapedCells(values);
    line := "| " + Join(cells, " | ") + " |";
  }

  /**
   Whatever the values contain, a written row splits at its unescaped pipes into
   exactly its cells, each between one space on either side.
   */
  lemma RowSplitsIntoCells(values: seq<string>)
    requires values != []
    ensures SplitPipes(RowText(EscapedCells(values)), false) == [""] + Padded(EscapedCells(values)) + [""]
    ensures forall c <- RowText(EscapedCells(values)) :: !Control(c)
  {
    hide Sealed, SplitPipes, EscapedCell, Control;
    var cells := EscapedCells(values);
    forall c | c in cells
      ensures Sealed(c) && forall x <- c :: !Control(x)
    {
      var i :| 0 <= i < |values| && cells[i] == c;
      CellIsSealed(values[i]);
    }
    RowIsTail(cells);
    TailSplits(cells);
    assert RowText(cells) == "" + "|" + RowTail(cells);
    OrdinaryIsSealed("");
    SplitSealed("", RowTail(cells), false);
    JoinClean(cells);
  }

  lemma CellIsSealed(value: string)
    ensures Sealed(EscapedCell(value)) && forall x <- EscapedCell(value) :: !Control(x)
  {
    EscapedIsSealed(NormalizeNewlines(value));
  }

  lemma {:induction false} JoinClean(cells: seq<string>)
    requires forall c <- cells :: forall x <- c :: !Control(x)
    ensures forall x <- Join(cells, " | ") :: !Control(x)
    ensures forall x <- RowText(cells) :: !Control(x)
  {
    if |cells| > 1 {
      assert forall c <- cells[1..] :: c in cells;
      JoinClean(cells[1..]);
    }
    if cells != [] {
      assert cells[0] in cells;
    }
  }
}
