/** The comma-separated text both export buttons build:
    `headers.join(",") + "\n" + rows.map(e => e.join(",")).join("\n")`. */
module Csv {
  import opened Seqs

  function Line(cells: seq<string>): string
  {
    Join(cells, ",")
  }

  function Lines(rows: seq<seq<string>>): (r: seq<string>)
    ensures |r| == |rows|
    ensures forall k :: 0 <= k < |rows| ==> r[k] == Line(rows[k])
  {
    seq(|rows|, k requires 0 <= k < |rows| => Line(rows[k]))
  }

  /** The scheme prefix both exports put before the text. */
  const DataPrefix: string := "data:text/csv;charset=utf-8,"

  /** The exported text after the scheme prefix is the header line followed
      by one line per row, in order; with no rows it ends in a line break. */
  function Document(header: seq<string>, rows: seq<seq<string>>): (r: string)
    ensures |r| > |DataPrefix| && r[..|DataPrefix|] == DataPrefix
    ensures rows != [] ==> r == DataPrefix + Join([Line(header)] + Lines(rows), "\n")
    ensures rows == [] ==> r[|DataPrefix|..] == Line(header) + "\n"
  {
    var r := DataPrefix + Line(header) + "\n" + Join(Lines(rows), "\n");
    assert ([Line(header)] + Lines(rows))[1..] == Lines(rows);
    assert r == DataPrefix + (Line(header) + "\n" + Join(Lines(rows), "\n"));
    r
  }

  /** Cells are not quoted, so a comma inside a cell is read as a column
      break: two different rows render as the same line. */
  lemma CellsAreNotEscaped()
    ensures Line(["a,b", "c"]) == Line(["a", "b,c"])
    ensures ["a,b", "c"] != ["a", "b,c"]
  {
    assert ["a,b", "c"][0] != ["a", "b,c"][0];
  }
}
