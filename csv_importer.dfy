/**
 * `CsvImporter`: a reader over a CSV file that checks the header line for the
 * labels it needs and then hands out the following lines in batches, each
 * keyed by the header. `fgetcsv`'s tokenising is not modelled: the file is
 * given as its lines, already split into fields.
 */
module Csv {
  import opened Wrappers

  /** One line of the file, split into fields. */
  type Row = seq<string>

  /** An entry of `$header_labels`: the column label and whether it must be present. */
  datatype HeaderLabel = HeaderLabel(name: string, required: bool)

  /** The three `InvalidArgumentException`s of the constructor. */
  datatype CsvError =
    | InvalidFileName                         // `fopen` failed
    | HeaderUnreadable                        // no header line
    | MissingHeaderLabels(labels: seq<string>)

  /** What `get` returns per line: keyed by header (a missing cell is PHP's null), or the bare fields. */
  datatype Record = Keyed(fields: map<string, Option<string>>) | Plain(cells: Row)

  /** The required labels that the header does not contain, in the order given. */
  function MissingLabels(labels: seq<HeaderLabel>, header: Row): (missing: seq<string>)
    ensures |missing| <= |labels|
    ensures forall i :: 0 <= i < |missing| ==> missing[i] !in header
  {
    if labels == [] then []
    else
      var init := MissingLabels(labels[..|labels| - 1], header);
      var l := labels[|labels| - 1];
      if l.required && l.name !in header then init + [l.name] else init
  }

  /** A label is reported missing exactly when some required entry names it and the header lacks it. */
  lemma {:induction false} MissingLabelsExact(labels: seq<HeaderLabel>, header: Row, s: string)
    ensures s in MissingLabels(labels, header) <==>
      s !in header && exists i :: 0 <= i < |labels| && labels[i].required && labels[i].name == s
  {
    if labels != [] {
      var init := labels[..|labels| - 1];
      MissingLabelsExact(init, header, s);
      if s !in header && exists i :: 0 <= i < |labels| && labels[i].required && labels[i].name == s {
        var i :| 0 <= i < |labels| && labels[i].required && labels[i].name == s;
        if i < |labels| - 1 { assert init[i] == labels[i]; }
      }
      if exists i :: 0 <= i < |init| && init[i].required && init[i].name == s {
        var i :| 0 <= i < |init| && init[i].required && init[i].name == s;
        assert labels[i] == init[i];
      }
    }
  }

  /** Nothing is missing exactly when every required label is in the header; optional labels never count. */
  lemma {:induction false} MissingLabelsNone(labels: seq<HeaderLabel>, header: Row)
    ensures MissingLabels(labels, header) == [] <==>
      forall i :: 0 <= i < |labels| && labels[i].required ==> labels[i].name in header
  {
    var missing := MissingLabels(labels, header);
    if missing != [] {
      MissingLabelsExact(labels, header, missing[0]);
    }
    forall i | 0 <= i < |labels| && labels[i].required && labels[i].name !in header
      ensures missing != []
    {
      MissingLabelsExact(labels, header, labels[i].name);
    }
  }

  /** `$row[$i]`; a line shorter than the header yields PHP's null, here None. */
  function Cell(row: Row, i: int): Option<string> {
    if 0 <= i < |row| then Some(row[i]) else None
  }

  /** The row keyed by the first `n` header entries: `$row_new[$heading_i] = $row[$i]`, in order. */
  function MapPrefix(header: Row, row: Row, n: nat): (m: map<string, Option<string>>)
    requires n <= |header|
  {
    if n == 0 then map[] else MapPrefix(header, row, n - 1)[header[n - 1] := Cell(row, n - 1)]
  }

  /** The row keyed by the whole header. */
  function MapRow(header: Row, row: Row): (m: map<string, Option<string>>)
    ensures m.Keys == set i | 0 <= i < |header| :: header[i]
  {
    MapPrefixKeys(header, row, |header|);
    MapPrefix(header, row, |header|)
  }

  /** The keys are exactly the header labels. */
  lemma {:induction false} MapPrefixKeys(header: Row, row: Row, n: nat)
    requires n <= |header|
    ensures MapPrefix(header, row, n).Keys == set i | 0 <= i < n :: header[i]
  {
    if n > 0 {
      MapPrefixKeys(header, row, n - 1);
    }
  }

  /** Each label takes the field under its last occurrence among the first `n` header entries. */
  lemma {:induction false} MapPrefixValue(header: Row, row: Row, n: nat, j: nat)
    requires j < n <= |header|
    requires forall k :: j < k < n ==> header[k] != header[j]
    ensures header[j] in MapPrefix(header, row, n)
    ensures MapPrefix(header, row, n)[header[j]] == Cell(row, j)
  {
    if j < n - 1 {
      MapPrefixValue(header, row, n - 1, j);
    }
  }

  /**
   * Every header label is a key, and no other string is; a label that occurs
   * more than once takes the field under its last occurrence.
   */
  lemma {:induction false} MapRowAt(header: Row, row: Row)
    ensures MapRow(header, row).Keys == set i | 0 <= i < |header| :: header[i]
    ensures forall j :: 0 <= j < |header| && header[j] !in header[j + 1..] ==>
      MapRow(header, row)[header[j]] == Cell(row, j)
  {
    MapPrefixKeys(header, row, |header|);
    forall j | 0 <= j < |header| && header[j] !in header[j + 1..]
      ensures MapRow(header, row)[header[j]] == Cell(row, j)
    {
      forall k | j < k < |header| ensures header[k] != header[j] {
        assert header[k] == header[j + 1..][k - j - 1];
      }
      MapPrefixValue(header, row, |header|, j);
    }
  }

  /**
   * The inner `foreach` of `get`: writes the row's fields over `$row_new`,
   * which keeps its keys from the previous line. Those keys are header
   * labels too, so every one of them is overwritten.
   */
  method Rekey(header: Row, row: Row, prev: map<string, Option<string>>)
    returns (rowNew: map<string, Option<string>>)
    requires prev.Keys <= set i | 0 <= i < |header| :: header[i]
    ensures rowNew == MapRow(header, row)
    ensures rowNew.Keys == set i | 0 <= i < |header| :: header[i]
  {
    rowNew := prev;
    for i := 0 to |header|
      invariant rowNew == prev + MapPrefix(header, row, i)
    {
      rowNew := rowNew[header[i] := Cell(row, i)];
    }
    MapRowAt(header, row);
  }

  /** What `get` hands out for the given lines. */
  function Records(parseHeader: bool, header: Row, rows: seq<Row>): (rs: seq<Record>)
    ensures |rs| == |rows|
    ensures forall i :: 0 <= i < |rows| ==>
      rs[i] == if parseHeader then Keyed(MapRow(header, rows[i])) else Plain(rows[i])
  {
    if rows == [] then []
    else Records(parseHeader, header, rows[..|rows| - 1])
         + [if parseHeader then Keyed(MapRow(header, rows[|rows| - 1])) else Plain(rows[|rows| - 1])]
  }

  /**
   * How many lines `get($max_lines)` reads with `remaining` lines left: at
   * most `max_lines` when it is positive, all of them for 0, and none for a
   * negative value, where `$line_count = -1` already fails `$line_count < $max_lines`.
   */
  function BatchSize(maxLines: int, remaining: nat): (k: nat)
    ensures k <= remaining
    ensures maxLines > 0 ==> k <= maxLines && (k < maxLines ==> k == remaining)
    ensures maxLines == 0 ==> k == remaining
    ensures maxLines < 0 ==> k == 0
  {
    if maxLines > 0 then (if maxLines < remaining then maxLines else remaining)
    else if maxLines == 0 then remaining
    else 0
  }

  class CsvImporter {
    /** `$this->parse_header`. */
    const parseHeader: bool
    /** `$this->header`: the first line when headers are parsed. */
    const header: Row
    /** The lines after the header, in file order. */
    const rows: seq<Row>
    /** The read position: the lines before `pos` have been read. */
    var pos: nat

    ghost predicate Valid()
      reads this
    {
      pos <= |rows|
    }

    /** Lines not yet read. */
    function Remaining(): nat
      reads this
      requires Valid()
    {
      |rows| - pos
    }

    constructor (parseHeader: bool, header: Row, rows: seq<Row>)
      ensures Valid() && pos == 0
      ensures this.parseHeader == parseHeader && this.header == header && this.rows == rows
    {
      this.parseHeader := parseHeader;
      this.header := header;
      this.rows := rows;
      pos := 0;
    }

    /**
     * `get($max_lines)`: read up to `max_lines` lines (all when 0), each keyed
     * by the header, and leave the read position after the last one read.
     */
    method Get(maxLines: int) returns (data: seq<Record>)
      requires Valid()
      modifies this
      ensures Valid()
      ensures pos == old(pos) + BatchSize(maxLines, old(Remaining()))
      ensures data == Records(parseHeader, header, rows[old(pos)..pos])
    {
      data := [];
      var lineCount := if maxLines > 0 then 0 else -1;
      var rowNew: map<string, Option<string>> := map[];
      while lineCount < maxLines && pos < |rows|
        invariant old(pos) <= pos <= |rows|
        invariant maxLines > 0 ==> lineCount == pos - old(pos) && lineCount <= maxLines
        invariant maxLines <= 0 ==> lineCount == -1
        invariant maxLines < 0 ==> pos == old(pos)
        invariant rowNew.Keys <= set i | 0 <= i < |header| :: header[i]
        invariant data == Records(parseHeader, header, rows[old(pos)..pos])
        decreases |rows| - pos
      {
        var row := rows[pos];
        pos := pos + 1;
        if parseHeader {
          rowNew := Rekey(header, row, rowNew);
          data := data + [Keyed(rowNew)];
        } else {
          data := data + [Plain(row)];
        }
        assert rows[old(pos)..pos] == rows[old(pos)..pos - 1] + [row];
        if maxLines > 0 {
          lineCount := lineCount + 1;
        }
      }
    }
  }

  /**
   * `new CsvImporter($file, $parse_header, $header_labels)`: None stands for
   * a file `fopen` cannot open. With header parsing, the first line is the
   * header, and every required label must occur in it.
   */
  method Open(file: Option<seq<Row>>, parseHeader: bool, labels: seq<HeaderLabel>)
    returns (r: Result<CsvImporter, CsvError>)
    ensures file.None? ==> r == Err(InvalidFileName)
    ensures file.Some? && parseHeader && file.value == [] ==> r == Err(HeaderUnreadable)
    ensures file.Some? && parseHeader && file.value != [] ==>
      var missing := MissingLabels(labels, file.value[0]);
      (r.Err? <==> missing != []) && (r.Err? ==> r.error == MissingHeaderLabels(missing))
    ensures file.Some? && !parseHeader ==> r.Ok?
    ensures r.Ok? ==> && fresh(r.value) && r.value.Valid() && r.value.pos == 0
                      && r.value.parseHeader == parseHeader
                      && r.value.header == (if parseHeader then file.value[0] else [])
                      && r.value.rows == (if parseHeader then file.value[1..] else file.value)
  {
    if file.None? {
      return Err(InvalidFileName);
    }
    var lines := file.value;
    if !parseHeader {
      var importer := new CsvImporter(false, [], lines);
      return Ok(importer);
    }
    if lines == [] {
      return Err(HeaderUnreadable);
    }
    var header := lines[0];
    var missing: seq<string> := [];
    for i := 0 to |labels|
      invariant missing == MissingLabels(labels[..i], header)
    {
      assert labels[..i + 1][..i] == labels[..i];
      if labels[i].required && labels[i].name !in header {
        missing := missing + [labels[i].name];
      }
    }
    assert labels[..|labels|] == labels;
    if missing != [] {
      return Err(MissingHeaderLabels(missing));
    }
    var importer := new CsvImporter(true, header, lines[1..]);
    return Ok(importer);
  }
}
