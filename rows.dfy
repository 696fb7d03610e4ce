/** Reading the uploaded CSV text into e-mail records: the text is cut at
    every newline, each line at every comma (no quoting is honoured), lines
    with fewer than five fields are dropped and the first remaining line is
    taken as the header. */
module Rows {
  import opened Seqs
  import opened Text

  /** A record: at least five fields, read as sender, recipient, subject,
      content and date string; further fields are ignored. */
  type Row = r: seq<string> | |r| >= 5 witness ["", "", "", "", ""]

  function Sender(r: Row): string { r[0] }
  function Recipient(r: Row): string { r[1] }
  function Subject(r: Row): string { r[2] }
  function Content(r: Row): string { r[3] }
  function DateString(r: Row): string { r[4] }

  predicate HasFiveFields(fields: seq<string>) {
    |fields| >= 5
  }

  /** `text.split('\n').map(row => row.split(','))` */
  function FieldsOfLines(text: string): (rs: seq<seq<string>>)
    ensures |rs| == multiset(text)['\n'] + 1
  {
    SplitEach(Split(text, '\n'))
  }

  /** `… .filter(row => row.length >= 5)`: the header followed by the records. */
  function Table(text: string): (rs: seq<Row>)
    ensures |rs| <= multiset(text)['\n'] + 1
  {
    Filter(FieldsOfLines(text), HasFiveFields)
  }

  /** `rows.slice(1)`: the records, without the header; none for a table
      without lines. */
  function SplitRows(text: string): (emails: seq<Row>)
    ensures |emails| == if |Table(text)| == 0 then 0 else |Table(text)| - 1
  {
    var t := Table(text);
    if |t| == 0 then [] else t[1..]
  }

  /** A line gives a record exactly when it holds at least four commas. */
  lemma FieldCount(line: string)
    ensures HasFiveFields(Split(line, ',')) <==> multiset(line)[','] >= 4
  {
  }

  /** The lines of the text that hold at least four commas. */
  predicate IsDataLine(line: string) {
    multiset(line)[','] >= 4
  }

  /** The table is the comma-split of the lines with at least four commas, in
      the order of the file; joining a row with commas gives back its line. */
  lemma {:induction false} TableLines(text: string)
    ensures var lines := Filter(Split(text, '\n'), IsDataLine);
      && |Table(text)| == |lines|
      && (forall i :: 0 <= i < |lines| ==> Table(text)[i] == Split(lines[i], ','))
      && (forall i :: 0 <= i < |lines| ==> Join(Table(text)[i], ',') == lines[i])
  {
    var lines := Split(text, '\n');
    FilterSplitLines(lines);
    var dl := Filter(lines, IsDataLine);
    forall i | 0 <= i < |dl| ensures Join(Table(text)[i], ',') == dl[i] {
      JoinSplit(dl[i], ',');
    }
  }

  function SplitEach(lines: seq<string>): (rs: seq<seq<string>>)
    ensures |rs| == |lines|
  {
    seq(|lines|, i requires 0 <= i < |lines| => Split(lines[i], ','))
  }

  lemma {:induction false} FilterSplitLines(lines: seq<string>)
    ensures Filter(SplitEach(lines), HasFiveFields) == SplitEach(Filter(lines, IsDataLine))
    decreases |lines|
  {
    if |lines| > 0 {
      var p := lines[..|lines| - 1];
      var x := lines[|lines| - 1];
      FilterSplitLines(p);
      var se := SplitEach(lines);
      assert se[..|se| - 1] == SplitEach(p);
      assert se[|se| - 1] == Split(x, ',');
      FieldCount(x);
      var dp := Filter(p, IsDataLine);
      assert Filter(lines, IsDataLine) == dp + (if IsDataLine(x) then [x] else []);
      SplitEachSnoc(dp, x);
    }
  }

  lemma SplitEachSnoc(a: seq<string>, x: string)
    ensures SplitEach(a + [x]) == SplitEach(a) + [Split(x, ',')]
  {
  }

  /** The records are the lines with at least four commas after the first
      one, in the order of the file, each cut at its commas: the first such
      line is the header. Joining a record with commas gives back its line. */
  lemma RecordsAreDataLines(text: string)
    ensures var lines := Filter(Split(text, '\n'), IsDataLine);
      && |SplitRows(text)| == (if |lines| == 0 then 0 else |lines| - 1)
      && (forall i :: 0 <= i < |SplitRows(text)| ==> SplitRows(text)[i] == Split(lines[i + 1], ','))
      && (forall i :: 0 <= i < |SplitRows(text)| ==> Join(SplitRows(text)[i], ',') == lines[i + 1])
  {
    var lines := Filter(Split(text, '\n'), IsDataLine);
    var t, e := Table(text), SplitRows(text);
    TableLines(text);
    forall i | 0 <= i < |e| ensures e[i] == Split(lines[i + 1], ',') && Join(e[i], ',') == lines[i + 1] {
      assert e[i] == t[i + 1];
    }
  }

  /** Every record sits on one line of the text: no field holds a newline or
      a comma. */
  lemma RowsAreLines(text: string)
    ensures forall i, j :: 0 <= i < |SplitRows(text)| && 0 <= j < |SplitRows(text)[i]| ==>
      '\n' !in SplitRows(text)[i][j] && ',' !in SplitRows(text)[i][j]
  {
    var lines := Split(text, '\n');
    FilterSplitLines(lines);
    var dl := Filter(lines, IsDataLine);
    forall i, j | 0 <= i < |dl| && 0 <= j < |Split(dl[i], ',')|
      ensures '\n' !in Split(dl[i], ',')[j]
    {
      assert dl[i] in lines;
      JoinSplit(dl[i], ',');
      NoNewlineInPart(Split(dl[i], ','), j);
    }
  }

  /** A part of a joined text holds no character the text does not hold. */
  lemma {:induction false} NoNewlineInPart(parts: seq<string>, j: int)
    requires 0 <= j < |parts|
    requires '\n' !in Join(parts, ',')
    ensures '\n' !in parts[j]
  {
    if |parts| > 1 {
      assert Join(parts, ',') == parts[0] + [','] + Join(parts[1..], ',');
      if j > 0 {
        NoNewlineInPart(parts[1..], j - 1);
      }
    }
  }
}
