/**
 The CSV export: one header line and one row per file, cells quoted in the
 manner of rules 6 and 7 of section 2 of RFC 4180. Alongside the encoder sits
 a reader for such text (split into lines, then fields), and the round trip
 through it is the property that makes the quoting correct. Dates are
 rendered elsewhere; the model takes each file's `createdAt` as its
 rendered text.
 */
module Export {
  import opened Text

  datatype ExportFile = ExportFile(id: string, name: string, mimeType: string, size: Option<nat>, createdAt: string)

  datatype ExportTag = ExportTag(id: string, name: string)

  datatype ExportLink = ExportLink(fileId: string, tagId: string)

  const Headers: seq<string> := ["name", "type", "size", "createdAt", "tags"]

  /** `headers.join(",")` */
  function HeaderLine(): string {
    Join(Headers, ",")
  }

  /** The header line splits at its commas into the five column names. */
  lemma HeaderLineFields()
    ensures SplitOn(HeaderLine(), ',') == Headers
  {
    SplitJoin(Headers, ',');
  }

  /** `s.replace(/"/g, '""')`: every quote doubled. */
  function Double(s: string): (r: string)
    ensures |r| >= |s|
  {
    if |s| == 0 then []
    else (if s[0] == '"' then "\"\"" else [s[0]]) + Double(s[1..])
  }

  /** Doubling adds no character that was not there. */
  lemma {:induction false} DoubleChars(s: string)
    ensures forall c :: c in Double(s) <==> c in s
  {
    if |s| > 0 {
      DoubleChars(s[1..]);
      assert forall c :: c in s <==> c == s[0] || c in s[1..];
    }
  }

  /** A cell must be quoted when it holds a comma or a quote. */
  predicate NeedsQuotes(s: string) {
    Contains(s, ",") || Contains(s, "\"")
  }

  /** One cell: quoted with its quotes doubled when needed, verbatim otherwise. */
  function EscapeCell(s: string): (r: string)
    ensures forall c :: c in r <==> c in s || (NeedsQuotes(s) && c == '"')
  {
    if NeedsQuotes(s) then
      DoubleChars(s);
      "\"" + Double(s) + "\""
    else s
  }

  /** A cell is quoted exactly when it holds a comma or a quote. */
  lemma QuotedIffSpecial(s: string)
    ensures |EscapeCell(s)| > 0 && EscapeCell(s)[0] == '"' <==> ',' in s || '"' in s
  {
    ContainsChar(s, ',');
    ContainsChar(s, '"');
  }

  /** A cell with a line break but neither comma nor quote is written as it is,
      line break included; rule 6 of section 2 of RFC 4180 wants it quoted. */
  lemma LineBreakLeftUnquoted(s: string)
    requires '\n' in s && ',' !in s && '"' !in s
    ensures EscapeCell(s) == s && '\n' in EscapeCell(s)
  {
    ContainsChar(s, ',');
    ContainsChar(s, '"');
  }

  /** The cells of a row, each escaped, in order. */
  function EscapeAll(cells: seq<string>): (r: seq<string>)
    ensures |r| == |cells|
    ensures forall i :: 0 <= i < |cells| ==> r[i] == EscapeCell(cells[i])
  {
    seq(|cells|, i requires 0 <= i < |cells| => EscapeCell(cells[i]))
  }

  /** One line of the file: the escaped cells joined by commas. */
  function RowLine(cells: seq<string>): string {
    Join(EscapeAll(cells), ",")
  }

  /** `new Map(tags.map((t) => [t._id, t.name])).get(id)`: a later tag with the
      same id replaces an earlier one. */
  function TagNameOf(tags: seq<ExportTag>, id: string): (r: Option<string>)
    ensures r.Some? <==> exists k :: 0 <= k < |tags| && tags[k].id == id
    ensures r.Some? ==> exists k :: (0 <= k < |tags| && tags[k].id == id && tags[k].name == r.value
      && forall j :: k < j < |tags| ==> tags[j].id != id)
  {
    if |tags| == 0 then None
    else if tags[|tags| - 1].id == id then Some(tags[|tags| - 1].name)
    else
      var r := TagNameOf(tags[..|tags| - 1], id);
      assert forall k :: 0 <= k < |tags| - 1 ==> tags[..|tags| - 1][k] == tags[k];
      r
  }

  /** The file's tag names in link order; unknown tags and empty names are skipped. */
  function TagNames(tags: seq<ExportTag>, links: seq<ExportLink>, fileId: string): (r: seq<string>)
    ensures forall n :: n in r <==> n != "" && SomeLinkNames(tags, links, fileId, n)
    ensures |r| <= |links|
  {
    if |links| == 0 then []
    else
      var name := if links[0].fileId == fileId then TagNameOf(tags, links[0].tagId) else None;
      var rest := TagNames(tags, links[1..], fileId);
      SomeLinkNamesCons(tags, links, fileId);
      (if name.Some? && name.value != "" then [name.value] else []) + rest
  }

  /** Some record links the file to a known tag named `n`. */
  predicate SomeLinkNames(tags: seq<ExportTag>, links: seq<ExportLink>, fileId: string, n: string) {
    exists k :: 0 <= k < |links| && LinkNames(tags, links[k], fileId, n)
  }

  /** The record links the file to a known tag named `n`. */
  predicate LinkNames(tags: seq<ExportTag>, l: ExportLink, fileId: string, n: string) {
    l.fileId == fileId && TagNameOf(tags, l.tagId) == Some(n)
  }

  lemma SomeLinkNamesCons(tags: seq<ExportTag>, links: seq<ExportLink>, fileId: string)
    requires |links| > 0
    ensures forall n :: SomeLinkNames(tags, links, fileId, n) <==>
      LinkNames(tags, links[0], fileId, n) || SomeLinkNames(tags, links[1..], fileId, n)
  {
    forall n ensures SomeLinkNames(tags, links, fileId, n) <==>
      LinkNames(tags, links[0], fileId, n) || SomeLinkNames(tags, links[1..], fileId, n)
    {
      if SomeLinkNames(tags, links, fileId, n) {
        var k :| 0 <= k < |links| && LinkNames(tags, links[k], fileId, n);
        if k > 0 {
          assert links[1..][k - 1] == links[k];
        }
      }
      if SomeLinkNames(tags, links[1..], fileId, n) {
        var k :| 0 <= k < |links[1..]| && LinkNames(tags, links[1..][k], fileId, n);
        assert links[k + 1] == links[1..][k];
      }
    }
  }

  /** The names follow the order of the file-tag records: the names from earlier
      records come first. */
  lemma {:induction false} TagNamesAppend(tags: seq<ExportTag>, a: seq<ExportLink>, b: seq<ExportLink>, fileId: string)
    ensures TagNames(tags, a + b, fileId) == TagNames(tags, a, fileId) + TagNames(tags, b, fileId)
  {
    if |a| == 0 {
      assert a + b == b;
    } else {
      assert (a + b)[1..] == a[1..] + b;
      TagNamesAppend(tags, a[1..], b, fileId);
    }
  }

  /** The five cells of a file's row, in header order. */
  function RowCells(f: ExportFile, tags: seq<ExportTag>, links: seq<ExportLink>): (r: seq<string>)
    ensures |r| == |Headers|
    ensures r[0] == f.name && r[1] == f.mimeType && r[3] == f.createdAt
    ensures f.size.None? <==> r[2] == ""
    ensures forall i :: 0 <= i < |r[2]| ==> IsDigit(r[2][i])
    ensures f.size.Some? ==> DigitsValue(r[2]) == f.size.value
    ensures r[4] == Join(TagNames(tags, links, f.id), "; ")
  {
    var size := if f.size.Some? then NatToStringRoundTrip(f.size.value); NatToString(f.size.value) else "";
    [f.name, f.mimeType, size, f.createdAt, Join(TagNames(tags, links, f.id), "; ")]
  }

  /** `exportToCSV`'s text: the header line, then one line per file, joined by "\n". */
  function Csv(files: seq<ExportFile>, tags: seq<ExportTag>, links: seq<ExportLink>): string {
    Join(Lines(files, tags, links), "\n")
  }

  // ----- Reading the text back -----

  /** `s.split(c)` */
  function SplitOn(s: string, c: char): (r: seq<string>)
    ensures |r| >= 1
    decreases |s|
  {
    if c !in s then [s]
    else
      var i := IndexOf(s, c);
      [s[..i]] + SplitOn(s[i + 1..], c)
  }

  /** Splitting undoes joining on a separator that no part contains. */
  lemma {:induction false} SplitJoin(parts: seq<string>, c: char)
    requires |parts| >= 1
    requires forall i :: 0 <= i < |parts| ==> c !in parts[i]
    ensures SplitOn(Join(parts, [c]), c) == parts
    decreases |parts|
  {
    if |parts| > 1 {
      var rest := Join(parts[1..], [c]);
      assert Join(parts, [c]) == parts[0] + [c] + rest;
      SplitFirst(parts[0], c, rest);
      SplitJoin(parts[1..], c);
    }
  }

  /** Splitting at the first separator: the part before it, then the split of the rest. */
  lemma SplitFirst(a: string, c: char, b: string)
    requires c !in a
    ensures SplitOn(a + [c] + b, c) == [a] + SplitOn(b, c)
  {
    var s := a + [c] + b;
    assert s[|a|] == c;
    IndexOfAfter(a, c, b);
    assert s[..|a|] == a;
    assert s[|a| + 1..] == b;
  }

  lemma {:induction false} IndexOfAfter(a: string, c: char, b: string)
    requires c !in a
    ensures c in a + [c] + b && IndexOf(a + [c] + b, c) == |a|
    decreases |a|
  {
    var s := a + [c] + b;
    assert s[|a|] == c;
    if |a| > 0 {
      assert a[0] in a;
      assert s[1..] == a[1..] + [c] + b;
      IndexOfAfter(a[1..], c, b);
    }
  }

  /** An unquoted field: everything before the next comma. */
  function ReadPlain(s: string): (r: (string, string))
    ensures r.0 + r.1 == s
    ensures r.1 == [] || r.1[0] == ','
    ensures ',' !in r.0
  {
    if |s| == 0 || s[0] == ',' then ([], s)
    else
      var (f, rest) := ReadPlain(s[1..]);
      ([s[0]] + f, rest)
  }

  /** A quoted field after its opening quote: a doubled quote stands for one
      quote, a single quote ends the field; None when the quote never closes. */
  function ReadQuoted(s: string): (r: Option<(string, string)>)
    ensures r.Some? ==> |r.value.1| < |s| + 1 && |r.value.1| <= |s|
    decreases |s|
  {
    if |s| == 0 then None
    else if s[0] == '"' then
      if |s| >= 2 && s[1] == '"' then
        match ReadQuoted(s[2..])
        case None => None
        case Some((f, rest)) => Some(("\"" + f, rest))
      else Some(([], s[1..]))
    else
      match ReadQuoted(s[1..])
      case None => None
      case Some((f, rest)) => Some(([s[0]] + f, rest))
  }

  /** The fields of one line; None when a quoted field is malformed. */
  function ParseFields(s: string): (r: Option<seq<string>>)
    decreases |s|
  {
    var read := if |s| > 0 && s[0] == '"' then ReadQuoted(s[1..]) else Some(ReadPlain(s));
    match read
    case None => None
    case Some((f, rest)) =>
      if rest == [] then Some([f])
      else if rest[0] != ',' then None
      else match ParseFields(rest[1..])
        case None => None
        case Some(fs) => Some([f] + fs)
  }

  lemma {:induction false} ReadQuotedDoubled(c: string, tail: string)
    requires tail == [] || tail[0] != '"'
    ensures ReadQuoted(Double(c) + "\"" + tail) == Some((c, tail))
    decreases |c|
  {
    var t := "\"" + tail;
    Assoc(Double(c), "\"", tail);
    if |c| == 0 {
      assert Double(c) + t == t;
      assert t[1..] == tail;
    } else {
      var x := Double(c[1..]) + t;
      ReadQuotedDoubled(c[1..], tail);
      Assoc(Double(c[1..]), "\"", tail);
      DoubleCons(c, t);
      if c[0] == '"' {
        ReadQuotedAfterDoubledQuote(x, c[1..], tail);
        assert "\"" + c[1..] == c;
      } else {
        ReadQuotedAfterPlainChar(c[0], x, c[1..], tail);
        assert [c[0]] + c[1..] == c;
      }
    }
  }

  lemma Assoc<T>(a: seq<T>, b: seq<T>, c: seq<T>)
    ensures a + b + c == a + (b + c)
  {
  }

  /** The first character of the input decides the first piece of its doubling. */
  lemma DoubleCons(c: string, t: string)
    requires |c| > 0
    ensures Double(c) + t == (if c[0] == '"' then "\"\"" else [c[0]]) + (Double(c[1..]) + t)
  {
    Assoc(if c[0] == '"' then "\"\"" else [c[0]], Double(c[1..]), t);
  }

  /** A doubled quote contributes one quote to the field. */
  lemma ReadQuotedAfterDoubledQuote(x: string, f: string, rest: string)
    requires ReadQuoted(x) == Some((f, rest))
    ensures ReadQuoted("\"\"" + x) == Some(("\"" + f, rest))
  {
    assert ("\"\"" + x)[2..] == x;
  }

  /** Any other character is copied into the field. */
  lemma ReadQuotedAfterPlainChar(ch: char, x: string, f: string, rest: string)
    requires ch != '"' && ReadQuoted(x) == Some((f, rest))
    ensures ReadQuoted([ch] + x) == Some(([ch] + f, rest))
  {
    assert ([ch] + x)[1..] == x;
  }

  lemma {:induction false} ReadPlainStopsAtComma(c: string, tail: string)
    requires ',' !in c
    requires tail == [] || tail[0] == ','
    ensures ReadPlain(c + tail) == (c, tail)
    decreases |c|
  {
    if |c| > 0 {
      assert c[0] in c;
      assert (c + tail)[0] == c[0];
      assert (c + tail)[1..] == c[1..] + tail;
      ReadPlainStopsAtComma(c[1..], tail);
      assert [c[0]] + c[1..] == c;
    } else {
      assert c + tail == tail;
    }
  }

  /** Reading an escaped cell followed by the end of line or a comma gives back
      the cell and leaves the rest. */
  lemma ReadEscaped(c: string, tail: string)
    requires tail == [] || tail[0] == ','
    ensures var s := EscapeCell(c) + tail;
      (if |s| > 0 && s[0] == '"' then ReadQuoted(s[1..]) else Some(ReadPlain(s))) == Some((c, tail))
  {
    if NeedsQuotes(c) {
      ReadEscapedQuoted(c, tail);
    } else {
      ReadEscapedPlain(c, tail);
    }
  }

  lemma ReadEscapedQuoted(c: string, tail: string)
    requires tail == [] || tail[0] == ','
    ensures var s := "\"" + Double(c) + "\"" + tail; ReadQuoted(s[1..]) == Some((c, tail))
  {
    var x := Double(c) + "\"" + tail;
    ReadQuotedDoubled(c, tail);
    Assoc("\"" + Double(c), "\"", tail);
    Assoc("\"", Double(c), "\"" + tail);
    Assoc(Double(c), "\"", tail);
    assert ("\"" + x)[1..] == x;
  }

  lemma ReadEscapedPlain(c: string, tail: string)
    requires tail == [] || tail[0] == ','
    requires !NeedsQuotes(c)
    ensures var s := c + tail; !(|s| > 0 && s[0] == '"') && ReadPlain(s) == (c, tail)
  {
    assert ',' !in c by { ContainsChar(c, ','); }
    assert '"' !in c by { ContainsChar(c, '"'); }
    ReadPlainStopsAtComma(c, tail);
    if |c| > 0 {
      assert (c + tail)[0] == c[0] && c[0] in c;
    }
  }

  /** Reading a row line gives back exactly the cells it was written from. */
  lemma {:induction false} ParseRowLine(cells: seq<string>)
    requires |cells| >= 1
    ensures ParseFields(RowLine(cells)) == Some(cells)
    decreases |cells|
  {
    var e := EscapeAll(cells);
    if |cells| == 1 {
      assert RowLine(cells) == EscapeCell(cells[0]) + [];
      ReadEscaped(cells[0], []);
      assert cells == [cells[0]];
    } else {
      var rest := Join(e[1..], ",");
      assert RowLine(cells) == EscapeCell(cells[0]) + ("," + rest);
      ReadEscaped(cells[0], "," + rest);
      assert e[1..] == EscapeAll(cells[1..]);
      ParseRowLine(cells[1..]);
      assert ("," + rest)[1..] == rest;
      assert cells == [cells[0]] + cells[1..];
    }
  }

  /** No text the file renders holds a line break. */
  predicate NoLineBreaks(files: seq<ExportFile>, tags: seq<ExportTag>, links: seq<ExportLink>) {
    forall i, k :: 0 <= i < |files| && 0 <= k < |Headers| ==> '\n' !in RowCells(files[i], tags, links)[k]
  }

  lemma {:induction false} JoinWithout(parts: seq<string>, sep: string, c: char)
    requires c !in sep
    requires forall i :: 0 <= i < |parts| ==> c !in parts[i]
    ensures c !in Join(parts, sep)
    decreases |parts|
  {
    if |parts| > 1 {
      JoinWithout(parts[1..], sep, c);
    }
  }

  lemma RowLineWithoutBreak(cells: seq<string>)
    requires forall k :: 0 <= k < |cells| ==> '\n' !in cells[k]
    ensures '\n' !in RowLine(cells)
  {
    JoinWithout(EscapeAll(cells), ",", '\n');
  }

  /** The lines of the text before they are joined. */
  function Lines(files: seq<ExportFile>, tags: seq<ExportTag>, links: seq<ExportLink>): (r: seq<string>)
    ensures |r| == |files| + 1 && r[0] == HeaderLine()
    ensures forall i :: 0 <= i < |files| ==> r[i + 1] == FileLine(files[i], tags, links)
  {
    var rows := seq(|files|, i requires 0 <= i < |files| => FileLine(files[i], tags, links));
    var r := [HeaderLine()] + rows;
    assert forall i :: 0 <= i < |files| ==> r[i + 1] == rows[i];
    r
  }

  /** The line written for one file. */
  function FileLine(f: ExportFile, tags: seq<ExportTag>, links: seq<ExportLink>): string {
    RowLine(RowCells(f, tags, links))
  }

  /** Without line breaks in the cells, no line holds one. */
  lemma LinesWithoutBreak(files: seq<ExportFile>, tags: seq<ExportTag>, links: seq<ExportLink>)
    requires NoLineBreaks(files, tags, links)
    ensures forall i :: 0 <= i < |files| + 1 ==> '\n' !in Lines(files, tags, links)[i]
  {
    var parts := Lines(files, tags, links);
    forall i | 0 <= i < |parts|
      ensures '\n' !in parts[i]
    {
      if i == 0 {
        HeaderWithoutBreak();
      } else {
        RowLineWithoutBreak(RowCells(files[i - 1], tags, links));
      }
    }
  }

  lemma HeaderWithoutBreak()
    ensures '\n' !in HeaderLine()
  {
    JoinWithout(Headers, ",", '\n');
  }

  /** Every file line reads back as the file's cells. */
  lemma FileLinesParse(files: seq<ExportFile>, tags: seq<ExportTag>, links: seq<ExportLink>)
    ensures forall i :: 0 <= i < |files| ==> ParseFields(Lines(files, tags, links)[i + 1]) == Some(RowCells(files[i], tags, links))
  {
    forall i | 0 <= i < |files|
      ensures ParseFields(FileLine(files[i], tags, links)) == Some(RowCells(files[i], tags, links))
    {
      ParseRowLine(RowCells(files[i], tags, links));
    }
  }

  /** When no cell holds a line break, the text splits into the header line and
      one line per file, and each line reads back as that file's five cells. */
  lemma CsvRoundTrip(files: seq<ExportFile>, tags: seq<ExportTag>, links: seq<ExportLink>)
    requires NoLineBreaks(files, tags, links)
    ensures var lines := SplitOn(Csv(files, tags, links), '\n');
      && |lines| == |files| + 1
      && lines[0] == HeaderLine()
      && forall i :: 0 <= i < |files| ==> ParseFields(lines[i + 1]) == Some(RowCells(files[i], tags, links))
  {
    LinesWithoutBreak(files, tags, links);
    SplitJoin(Lines(files, tags, links), '\n');
    FileLinesParse(files, tags, links);
  }
}
