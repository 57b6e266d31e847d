/** `to_markdown_table(items, headers)`: a list of dictionaries rendered as
    a Markdown pipe table, one column per header, or the literal "No data."
    for an empty list. */
module DataParser {
  import opened Text
  import opened Values

  const NoData := "No data."

  /** One table line: `"| " + " | ".join(cells) + " |"`. */
  function Framed(cells: seq<string>): string {
    "| " + Join(" | ", cells) + " |"
  }

  /** `["---"] * n`. */
  function Dashes(n: nat): (ds: seq<string>)
    ensures |ds| == n && forall i :: 0 <= i < n ==> ds[i] == "---"
  {
    seq(n, _ => "---")
  }

  /** `[str(obj.get(h, "")) for h in headers]`. */
  function RowCells(obj: Record, headers: seq<string>): (cells: seq<string>)
    ensures |cells| == |headers|
    ensures forall i :: 0 <= i < |headers| ==> cells[i] == Show(Get(obj, headers[i], Str("")))
  {
    seq(|headers|, i requires 0 <= i < |headers| => Show(Get(obj, headers[i], Str(""))))
  }

  /** The lines rendered for `items`, one per item, in order. */
  function RowLines(items: seq<Record>, headers: seq<string>): (lines: seq<string>)
    ensures |lines| == |items|
    ensures forall k :: 0 <= k < |items| ==> lines[k] == Framed(RowCells(items[k], headers))
  {
    seq(|items|, k requires 0 <= k < |items| => Framed(RowCells(items[k], headers)))
  }

  /** Every line of a non-empty table: the header line, the separator line,
      then one line per item. */
  function TableLines(items: seq<Record>, headers: seq<string>): seq<string> {
    [Framed(headers), Framed(Dashes(|headers|))] + RowLines(items, headers)
  }

  /** What `to_markdown_table` returns. A non-empty table starts with a
      pipe, so it is never mistaken for "No data.". */
  function MarkdownTable(items: seq<Record>, headers: seq<string>): (table: string)
    ensures table == NoData <==> items == []
    ensures items != [] ==> |table| > 0 && table[0] == '|'
  {
    if items == [] then NoData
    else
      var lines := TableLines(items, headers);
      assert Join("\n", lines) == lines[0] + "\n" + Join("\n", lines[1..]);
      Join("\n", lines)
  }

  /** `to_markdown_table`: the header and separator lines, then a loop that
      appends one line per item, joined with newlines. */
  method ToMarkdownTable(items: seq<Record>, headers: seq<string>) returns (table: string)
    ensures table == MarkdownTable(items, headers)
  {
    if items == [] {
      return NoData;
    }
    var line := Framed(headers);
    var sep := Framed(Dashes(|headers|));
    var rows := [line, sep];
    var k := 0;
    while k < |items|
      invariant 0 <= k <= |items|
      invariant rows == [line, sep] + RowLines(items[..k], headers)
    {
      RowLinesSnoc(items, headers, k);
      rows := rows + [Framed(RowCells(items[k], headers))];
      k := k + 1;
    }
    assert items[..|items|] == items;
    assert rows == TableLines(items, headers);
    table := Join("\n", rows);
  }

  /** One more item adds its line at the end. */
  lemma RowLinesSnoc(items: seq<Record>, headers: seq<string>, k: nat)
    requires k < |items|
    ensures RowLines(items[..k + 1], headers) == RowLines(items[..k], headers) + [Framed(RowCells(items[k], headers))]
  {
    var longer := RowLines(items[..k + 1], headers);
    var shorter := RowLines(items[..k], headers);
    var line := Framed(RowCells(items[k], headers));
    forall j | 0 <= j < k + 1
      ensures longer[j] == (shorter + [line])[j]
    {
      if j < k {
        assert items[..k + 1][j] == items[..k][j];
      } else {
        assert items[..k + 1][k] == items[k];
      }
    }
  }

  // ---------------------------------------------------------------------
  // Reading a table back
  // ---------------------------------------------------------------------

  /** A cell with the single spaces that surround it in a line. */
  function Padded(cells: seq<string>): (ps: seq<string>)
    ensures |ps| == |cells| && forall i :: 0 <= i < |cells| ==> ps[i] == " " + cells[i] + " "
  {
    seq(|cells|, i requires 0 <= i < |cells| => " " + cells[i] + " ")
  }

  lemma {:induction false} JoinPadded(cells: seq<string>)
    requires cells != []
    ensures Join("|", Padded(cells)) == " " + Join(" | ", cells) + " "
  {
    if |cells| > 1 {
      JoinPadded(cells[1..]);
      assert Padded(cells)[1..] == Padded(cells[1..]);
      var rest := Join(" | ", cells[1..]);
      assert " " + cells[0] + " " + "|" + (" " + rest + " ") == " " + (cells[0] + " | " + rest) + " ";
    }
  }

  /** Characters found in a join come from the separator or a part. */
  lemma {:induction false} JoinAvoids(sep: string, parts: seq<string>, c: char)
    requires c !in sep && forall p :: p in parts ==> c !in p
    ensures c !in Join(sep, parts)
  {
    if |parts| > 1 {
      JoinAvoids(sep, parts[1..], c);
    }
  }

  lemma FramedAvoids(cells: seq<string>, c: char)
    requires c != '|' && c != ' ' && forall x :: x in cells ==> c !in x
    ensures c !in Framed(cells)
  {
    JoinAvoids(" | ", cells, c);
  }

  /** A line splits at its pipes into an empty piece, each cell with its
      surrounding spaces, and an empty piece, when no cell holds a pipe. */
  lemma FramedReadBack(cells: seq<string>)
    requires cells != []
    requires forall c :: c in cells ==> '|' !in c
    ensures Split(Framed(cells), '|') == [""] + Padded(cells) + [""]
  {
    var parts := [""] + Padded(cells) + [""];
    JoinPadded(cells);
    JoinAppend("|", [""] + Padded(cells), [""]);
    assert Join("|", [""]) == "";
    assert ([""] + Padded(cells))[1..] == Padded(cells);
    assert Join("|", [""] + Padded(cells)) == "" + "|" + Join("|", Padded(cells));
    assert Join("|", parts) == Framed(cells);
    forall p | p in parts
      ensures '|' !in p
    {
      if p in Padded(cells) {
        var i :| 0 <= i < |cells| && p == Padded(cells)[i];
        assert cells[i] in cells;
      }
    }
    SplitJoin(parts, '|');
  }

  /** Each item's line holds one cell per header: the item's value for that
      header as `str()` prints it, or "" when the key is missing. */
  lemma RowReadBack(obj: Record, headers: seq<string>)
    requires headers != []
    requires forall h :: h in headers ==> '|' !in Show(Get(obj, h, Str("")))
    ensures var pieces := Split(Framed(RowCells(obj, headers)), '|');
      |pieces| == |headers| + 2 &&
      forall i :: 0 <= i < |headers| ==> pieces[i + 1] == " " + Show(Get(obj, headers[i], Str(""))) + " "
  {
    var cells := RowCells(obj, headers);
    forall c | c in cells
      ensures '|' !in c
    {
      var i :| 0 <= i < |cells| && c == cells[i];
      assert headers[i] in headers;
    }
    FramedReadBack(cells);
  }

  /** The separator line holds exactly one "---" per header. */
  lemma SeparatorCount(n: nat)
    ensures Occurrences(Framed(Dashes(n)), "---") == n
  {
    DashesCount(n);
    var inner := Join(" | ", Dashes(n));
    OccurrencesAbsent("| ", "---");
    OccurrencesAbsent(" |", "---");
    OccurrencesConcat("| ", inner, "---");
    OccurrencesConcat("| " + inner, " |", "---");
  }

  lemma {:induction false} DashesCount(n: nat)
    ensures Occurrences(Join(" | ", Dashes(n)), "---") == n
  {
    if n == 1 {
      OccurrencesSelf("---");
    } else if n > 1 {
      DashesCount(n - 1);
      assert Dashes(n)[1..] == Dashes(n - 1);
      var rest := Join(" | ", Dashes(n - 1));
      OccurrencesAbsent(" | ", "---");
      OccurrencesConcat(" | ", rest, "---");
      OccurrencesSelf("---");
      OccurrencesConcat("---", " | " + rest, "---");
      assert Join(" | ", Dashes(n)) == "---" + (" | " + rest);
    }
  }

  /** No line rendered for an item holds a newline when none of its cells
      does. */
  lemma RowLinesAvoid(items: seq<Record>, headers: seq<string>)
    requires forall k, h :: 0 <= k < |items| && h in headers ==> '\n' !in Show(Get(items[k], h, Str("")))
    ensures forall line :: line in RowLines(items, headers) ==> '\n' !in line
  {
    forall line | line in RowLines(items, headers)
      ensures '\n' !in line
    {
      var k :| 0 <= k < |items| && line == RowLines(items, headers)[k];
      var cells := RowCells(items[k], headers);
      forall c | c in cells
        ensures '\n' !in c
      {
        var i :| 0 <= i < |cells| && c == cells[i];
        assert headers[i] in headers;
      }
      FramedAvoids(cells, '\n');
    }
  }

  /** A non-empty table splits at its newlines into exactly `len(items) + 2`
      lines: the header line, the separator line, then the line of each item
      in order, when no header and no cell holds a newline. */
  lemma TableReadBack(items: seq<Record>, headers: seq<string>)
    requires items != []
    requires forall h :: h in headers ==> '\n' !in h
    requires forall k, h :: 0 <= k < |items| && h in headers ==> '\n' !in Show(Get(items[k], h, Str("")))
    ensures var lines := Split(MarkdownTable(items, headers), '\n');
      |lines| == |items| + 2 &&
      lines[0] == Framed(headers) &&
      lines[1] == Framed(Dashes(|headers|)) &&
      forall k :: 0 <= k < |items| ==> lines[k + 2] == Framed(RowCells(items[k], headers))
  {
    var lines := TableLines(items, headers);
    var rowLines := RowLines(items, headers);
    FramedAvoids(headers, '\n');
    FramedAvoids(Dashes(|headers|), '\n');
    RowLinesAvoid(items, headers);
    forall line | line in lines
      ensures '\n' !in line
    {
      if line !in rowLines {
        assert line == Framed(headers) || line == Framed(Dashes(|headers|));
      }
    }
    assert MarkdownTable(items, headers) == Join("\n", lines);
    SplitJoin(lines, '\n');
    assert forall k :: 0 <= k < |items| ==> lines[k + 2] == rowLines[k];
  }

  /** The lines of what `to_markdown_table` returns, empty list or not. */
  function OutputLines(items: seq<Record>, headers: seq<string>): seq<string> {
    if items == [] then [NoData] else TableLines(items, headers)
  }

  /** Whatever the items, the output is its lines joined by newlines, and
      none of them holds a newline when no header and no cell does. */
  lemma OutputLinesJoined(items: seq<Record>, headers: seq<string>)
    requires forall h :: h in headers ==> '\n' !in h
    requires forall k, h :: 0 <= k < |items| && h in headers ==> '\n' !in Show(Get(items[k], h, Str("")))
    ensures OutputLines(items, headers) != []
    ensures MarkdownTable(items, headers) == Join("\n", OutputLines(items, headers))
    ensures forall line :: line in OutputLines(items, headers) ==> '\n' !in line
  {
    if items != [] {
      FramedAvoids(headers, '\n');
      FramedAvoids(Dashes(|headers|), '\n');
      RowLinesAvoid(items, headers);
    }
  }

  /** Keys of an item that are not headers never reach the output: the table
      of the items cut down to the headers is the same table. */
  lemma TableIgnoresOtherKeys(items: seq<Record>, headers: seq<string>)
    ensures MarkdownTable(items, headers)
         == MarkdownTable(seq(|items|, k requires 0 <= k < |items| => map h | h in items[k] && h in headers :: items[k][h]), headers)
  {
    var cut := seq(|items|, k requires 0 <= k < |items| => map h | h in items[k] && h in headers :: items[k][h]);
    forall k | 0 <= k < |items|
      ensures RowCells(items[k], headers) == RowCells(cut[k], headers)
    {
    }
    assert RowLines(items, headers) == RowLines(cut, headers);
  }
}
