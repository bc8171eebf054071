/**
 * `ro.undef.csv.CSVWriter`: serialises rows of cells following the field rules of
 * section 2 of RFC 4180. A cell holding a comma, a double quote, a CR or an LF is
 * enclosed in double quotes with every double quote inside it doubled; any other
 * cell is written as it is. Cells are separated by commas and each row ends in CRLF.
 *
 * The `java.io.Writer` the rows go to is the `out` field: the text written so far.
 * Besides the writer, the module gives a parser for one record of section 2 of
 * RFC 4180, so that what the writer emits can be read back.
 */
module Csv {
  import opened Wrappers

  // ---------------------------------------------------------------------------
  // What the writer emits

  /** The characters `hasSpecialChars` looks for: `,`, `"`, LF and CR. */
  predicate IsSpecial(c: char)
  {
    c == ',' || c == '"' || c == '\n' || c == '\r'
  }

  predicate HasSpecial(s: string)
  {
    exists i :: 0 <= i < |s| && IsSpecial(s[i])
  }

  /** `c` as `escapeQuotes` copies it: a double quote is doubled. */
  function QuotePiece(c: char): string
  {
    if c == '"' then ['"', '"'] else [c]
  }

  /** `s` with every double quote doubled. */
  function DoubleQuotes(s: string): string
  {
    if s == [] then [] else QuotePiece(s[0]) + DoubleQuotes(s[1..])
  }

  /** `escapeQuotes(s)`: `s` with its quotes doubled, between double quotes. */
  function Quoted(s: string): string
  {
    ['"'] + DoubleQuotes(s) + ['"']
  }

  /** `escapeCell(s)`: quoted when it has a special character, verbatim otherwise. */
  function EscapedCell(s: string): string
  {
    if HasSpecial(s) then Quoted(s) else s
  }

  /** The escaped cells joined by commas. */
  function JoinCells(cells: seq<string>): string
  {
    if cells == [] then []
    else if |cells| == 1 then EscapedCell(cells[0])
    else EscapedCell(cells[0]) + [','] + JoinCells(cells[1..])
  }

  /** The text `writeRow(cells)` appends: the joined cells and CRLF. */
  function RowText(cells: seq<string>): string
  {
    JoinCells(cells) + ['\r', '\n']
  }

  function CountQuotes(s: string): nat
  {
    if s == [] then 0 else (if s[0] == '"' then 1 else 0) + CountQuotes(s[1..])
  }

  // ---------------------------------------------------------------------------
  // The writer

  class CSVWriter {
    var out: string

    constructor (out: string)
      ensures this.out == out
    {
      this.out := out;
    }

    /** Appends one row; what was written before is left as it was. */
    method WriteRow(cells: seq<string>)
      modifies this
      ensures out == old(out) + RowText(cells)
    {
      var firstCell := true;
      var i := 0;
      while i < |cells|
        invariant 0 <= i <= |cells|
        invariant firstCell <==> i == 0
        invariant out == old(out) + JoinCells(cells[..i])
      {
        var cell := cells[i];
        JoinCellsSnoc(cells[..i], cell);
        assert cells[..i + 1] == cells[..i] + [cell];
        if !firstCell {
          out := out + [','];
        }
        var escaped := EscapeCell(cell);
        out := out + escaped;
        firstCell := false;
        i := i + 1;
      }
      assert cells[..i] == cells;
      out := out + ['\r', '\n'];
    }
  }

  method EscapeCell(cell: string) returns (r: string)
    ensures r == EscapedCell(cell)
    ensures !HasSpecial(cell) ==> r == cell
    ensures HasSpecial(cell) ==> |r| == |cell| + 2 + CountQuotes(cell)
  {
    var special := HasSpecialChars(cell);
    if !special {
      return cell;
    }
    r := EscapeQuotes(cell);
    QuotedLength(cell);
  }

  method HasSpecialChars(str: string) returns (b: bool)
    ensures b <==> exists i :: 0 <= i < |str| && IsSpecial(str[i])
  {
    var i := 0;
    while i < |str|
      invariant 0 <= i <= |str|
      invariant forall j :: 0 <= j < i ==> !IsSpecial(str[j])
    {
      if IsSpecial(str[i]) {
        return true;
      }
      i := i + 1;
    }
    return false;
  }

  method EscapeQuotes(str: string) returns (r: string)
    ensures r == Quoted(str)
  {
    r := ['"'];
    var i := 0;
    while i < |str|
      invariant 0 <= i <= |str|
      invariant r == ['"'] + DoubleQuotes(str[..i])
    {
      var c := str[i];
      DoubleQuotesSnoc(str[..i], c);
      assert str[..i + 1] == str[..i] + [c];
      r := r + [c];
      if c == '"' {
        r := r + [c];
      }
      i := i + 1;
    }
    assert str[..i] == str;
    r := r + ['"'];
  }

  // ---------------------------------------------------------------------------
  // Properties of the emitted text

  lemma {:induction false} DoubleQuotesSnoc(s: string, c: char)
    ensures DoubleQuotes(s + [c]) == DoubleQuotes(s) + QuotePiece(c)
  {
    if s != [] {
      assert (s + [c])[1..] == s[1..] + [c];
      DoubleQuotesSnoc(s[1..], c);
    } else {
      assert DoubleQuotes([c]) == QuotePiece(c) + DoubleQuotes([]);
    }
  }

  lemma {:induction false} JoinCellsSnoc(cells: seq<string>, cell: string)
    ensures JoinCells(cells + [cell]) == JoinCells(cells) + (if cells == [] then [] else [',']) + EscapedCell(cell)
  {
    if |cells| == 1 {
      assert (cells + [cell])[1..] == [cell];
    } else if |cells| > 1 {
      assert (cells + [cell])[1..] == cells[1..] + [cell];
      JoinCellsSnoc(cells[1..], cell);
    }
  }

  /** Quoting adds the two enclosing quotes and one more character per quote inside. */
  lemma {:induction false} QuotedLength(s: string)
    ensures |Quoted(s)| == |s| + 2 + CountQuotes(s)
  {
    DoubleQuotesLength(s);
  }

  lemma {:induction false} DoubleQuotesLength(s: string)
    ensures |DoubleQuotes(s)| == |s| + CountQuotes(s)
  {
    if s != [] {
      DoubleQuotesLength(s[1..]);
    }
  }

  /** A cell without special characters is written verbatim. */
  lemma PlainCellVerbatim(s: string)
    requires forall i :: 0 <= i < |s| ==> !IsSpecial(s[i])
    ensures EscapedCell(s) == s
  {
  }

  /** An empty row and a row of one empty cell are written alike, as a bare CRLF. */
  lemma EmptyRowIsBareLineBreak()
    ensures RowText([]) == "\r\n"
    ensures RowText([""]) == "\r\n"
  {
  }

  // ---------------------------------------------------------------------------
  // Reading a record back (section 2 of RFC 4180)

  /** A parsed field and the text after it. */
  datatype Parsed = Parsed(value: string, rest: string)

  /**
   * The body of a quoted field, after its opening quote, up to the closing quote:
   * a doubled quote stands for one quote (rule 7). `None` if it is never closed.
   */
  function ParseQuoted(s: string): (r: Option<Parsed>)
    ensures r.Some? ==> |r.value.rest| < |s|
    decreases |s|
  {
    if s == [] then None
    else if s[0] == '"' then
      if |s| >= 2 && s[1] == '"' then
        match ParseQuoted(s[2..])
        case None => None
        case Some(p) => Some(Parsed(['"'] + p.value, p.rest))
      else Some(Parsed([], s[1..]))
    else
      match ParseQuoted(s[1..])
      case None => None
      case Some(p) => Some(Parsed([s[0]] + p.value, p.rest))
  }

  /** An unquoted field: everything up to the first special character (rule 5 admits no quote, comma or line break). */
  function ParseUnquoted(s: string): (p: Parsed)
    ensures p.value + p.rest == s
  {
    if s == [] || IsSpecial(s[0]) then Parsed([], s)
    else
      var p := ParseUnquoted(s[1..]);
      Parsed([s[0]] + p.value, p.rest)
  }

  function ParseField(s: string): (r: Option<Parsed>)
    ensures r.Some? ==> |r.value.rest| <= |s|
  {
    if s != [] && s[0] == '"' then ParseQuoted(s[1..]) else Some(ParseUnquoted(s))
  }

  /** The fields of one record without its line break; `None` if it is malformed. */
  function ParseRecord(s: string): Option<seq<string>>
    decreases |s|
  {
    match ParseField(s)
    case None => None
    case Some(p) =>
      if p.rest == [] then Some([p.value])
      else if p.rest[0] != ',' then None
      else
        match ParseRecord(p.rest[1..])
        case None => None
        case Some(fields) => Some([p.value] + fields)
  }

  /** One CRLF-terminated line: its record. */
  function ParseLine(line: string): Option<seq<string>>
  {
    if |line| >= 2 && line[|line| - 2..] == "\r\n" then ParseRecord(line[..|line| - 2]) else None
  }

  lemma {:induction false} ParseQuotedDoubled(c: string, tail: string)
    requires tail == [] || tail[0] != '"'
    ensures ParseQuoted(DoubleQuotes(c) + ['"'] + tail) == Some(Parsed(c, tail))
  {
    if c == [] {
      var s := ['"'] + tail;
      assert DoubleQuotes(c) + ['"'] + tail == s;
      assert s[1..] == tail;
    } else {
      var rest := DoubleQuotes(c[1..]) + ['"'] + tail;
      calc {
        DoubleQuotes(c) + ['"'] + tail;
        (QuotePiece(c[0]) + DoubleQuotes(c[1..])) + ['"'] + tail;
        QuotePiece(c[0]) + rest;
      }
      ParseQuotedDoubled(c[1..], tail);
      ParseQuotedPiece(c[0], rest, c[1..], tail);
      assert [c[0]] + c[1..] == c;
    }
  }

  /** One copied character reads back as itself, in front of what the rest reads as. */
  lemma ParseQuotedPiece(ch: char, rest: string, v: string, tail: string)
    requires ParseQuoted(rest) == Some(Parsed(v, tail))
    ensures ParseQuoted(QuotePiece(ch) + rest) == Some(Parsed([ch] + v, tail))
  {
    var s := QuotePiece(ch) + rest;
    if ch == '"' {
      assert s[2..] == rest;
    } else {
      assert s[1..] == rest;
    }
  }

  lemma {:induction false} ParseUnquotedPlain(c: string, tail: string)
    requires forall i :: 0 <= i < |c| ==> !IsSpecial(c[i])
    requires tail == [] || IsSpecial(tail[0])
    ensures ParseUnquoted(c + tail) == Parsed(c, tail)
  {
    if c == [] {
      assert c + tail == tail;
    } else {
      assert (c + tail)[1..] == c[1..] + tail;
      ParseUnquotedPlain(c[1..], tail);
      assert [c[0]] + c[1..] == c;
    }
  }

  /** Every escaped cell is read back as the cell, whatever follows it after a comma. */
  lemma ParseEscapedCell(c: string, tail: string)
    requires tail == [] || tail[0] == ','
    ensures ParseField(EscapedCell(c) + tail) == Some(Parsed(c, tail))
  {
    if HasSpecial(c) {
      var body := DoubleQuotes(c) + ['"'] + tail;
      assert EscapedCell(c) + tail == ['"'] + body;
      assert (['"'] + body)[1..] == body;
      ParseQuotedDoubled(c, tail);
    } else {
      assert forall i :: 0 <= i < |c| ==> !IsSpecial(c[i]);
      ParseUnquotedPlain(c, tail);
      assert c + tail != [] ==> (c + tail)[0] != '"';
    }
  }

  /** Parsing the cells a row joined gives the cells back, provided there is at least one. */
  lemma {:induction false} ParseJoinedCells(cells: seq<string>)
    requires |cells| >= 1
    ensures ParseRecord(JoinCells(cells)) == Some(cells)
  {
    if |cells| == 1 {
      assert EscapedCell(cells[0]) + [] == JoinCells(cells);
      ParseEscapedCell(cells[0], []);
      assert cells == [cells[0]];
    } else {
      var tail := [','] + JoinCells(cells[1..]);
      assert JoinCells(cells) == EscapedCell(cells[0]) + tail;
      ParseEscapedCell(cells[0], tail);
      assert tail[1..] == JoinCells(cells[1..]);
      ParseJoinedCells(cells[1..]);
      assert [cells[0]] + cells[1..] == cells;
    }
  }

  /** Round trip: the line `writeRow` emits for a non-empty row reads back as that row. */
  lemma RowRoundTrip(cells: seq<string>)
    requires |cells| >= 1
    ensures ParseLine(RowText(cells)) == Some(cells)
  {
    var line := RowText(cells);
    assert line[..|line| - 2] == JoinCells(cells);
    assert line[|line| - 2..] == "\r\n";
    ParseJoinedCells(cells);
  }

  /** Round trip for one quoted cell: dropping the outer quotes and collapsing each `""` gives the text back. */
  lemma QuotedRoundTrip(s: string)
    ensures ParseField(Quoted(s)) == Some(Parsed(s, []))
  {
    assert Quoted(s) == ['"'] + (DoubleQuotes(s) + ['"'] + []);
    ParseQuotedDoubled(s, []);
  }
}
