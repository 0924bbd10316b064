/** Loading benchmark rows: the lines of each JSONL file become rows, numbered on across files. */
module BenchmarkInput {

  /** One line of a file, after stripping: JSON decoding is left to the caller. */
  datatype Line = Blank | Invalid | MissingField | Payload(data: nat)

  datatype Row = Row(data: nat, file: nat, index: nat)

  datatype Loaded = Loaded(rows: seq<Row>) | BadLine(file: nat, line: nat) | NoRows(file: nat) | NoFiles

  predicate IsBad(line: Line) {
    line.Invalid? || line.MissingField?
  }

  ghost function Payloads(lines: seq<Line>): seq<nat> {
    if lines == [] then []
    else Payloads(lines[..|lines| - 1]) + if lines[|lines| - 1].Payload? then [lines[|lines| - 1].data] else []
  }

  ghost function Numbered(data: seq<nat>, file: nat, start: nat): seq<Row> {
    seq(|data|, k requires 0 <= k < |data| => Row(data[k], file, start + k))
  }

  ghost predicate Readable(lines: seq<Line>) {
    && (forall i :: 0 <= i < |lines| ==> !lines[i].Invalid? && !lines[i].MissingField?)
    && exists i :: 0 <= i < |lines| && lines[i].Payload?
  }

  /** The rows of the first `n` files, numbered across files. */
  ghost function AllRows(files: seq<seq<Line>>, n: nat): seq<Row>
    requires n <= |files|
  {
    if n == 0 then [] else AllRows(files, n - 1) + Numbered(Payloads(files[n - 1]), n - 1, |AllRows(files, n - 1)|)
  }

  /** The error of a file: its first bad line, or that it has no row at all. */
  ghost predicate FailsAs(lines: seq<Line>, file: nat, r: Loaded) {
    if exists i :: 0 <= i < |lines| && (lines[i].Invalid? || lines[i].MissingField?) then
      && r.BadLine? && r.file == file && 1 <= r.line <= |lines|
      && (lines[r.line - 1].Invalid? || lines[r.line - 1].MissingField?)
      && forall i :: 0 <= i < r.line - 1 ==> !lines[i].Invalid? && !lines[i].MissingField?
    else r == NoRows(file)
  }

  ghost predicate FirstUnreadable(files: seq<seq<Line>>, f: nat) {
    f < |files| && !Readable(files[f]) && forall g :: 0 <= g < f ==> Readable(files[g])
  }

  method LoadRows(lines: seq<Line>, file: nat, start: nat) returns (r: Loaded)
    ensures r.Loaded? <==> Readable(lines)
    ensures r.Loaded? ==> r.rows == Numbered(Payloads(lines), file, start)
    ensures !r.Loaded? ==> FailsAs(lines, file, r)
  {
    var rows: seq<Row> := [];
    for i := 0 to |lines|
      invariant forall j :: 0 <= j < i ==> !IsBad(lines[j])
      invariant rows == Numbered(Payloads(lines[..i]), file, start)
      invariant rows != [] <==> exists j :: 0 <= j < i && lines[j].Payload?
    {
      assert lines[..i + 1][..i] == lines[..i];
      if IsBad(lines[i]) {
        return BadLine(file, i + 1);
      }
      if lines[i].Payload? {
        rows := rows + [Row(lines[i].data, file, start + |rows|)];
      }
    }
    assert lines[..|lines|] == lines;
    r := if rows == [] then NoRows(file) else Loaded(rows);
  }

  method LoadDirectory(files: seq<seq<Line>>) returns (r: Loaded)
    ensures r.NoFiles? <==> files == []
    ensures r.Loaded? <==> files != [] && forall f :: 0 <= f < |files| ==> Readable(files[f])
    ensures r.Loaded? ==> r.rows == AllRows(files, |files|)
    ensures !r.Loaded? && files != [] ==> exists f: nat :: FirstUnreadable(files, f) && FailsAs(files[f], f, r)
  {
    if files == [] {
      return NoFiles;
    }
    var rows: seq<Row> := [];
    for f := 0 to |files|
      invariant forall g :: 0 <= g < f ==> Readable(files[g])
      invariant rows == AllRows(files, f)
    {
      r := LoadRows(files[f], f, |rows|);
      if !r.Loaded? {
        assert FirstUnreadable(files, f);
        return;
      }
      rows := rows + r.rows;
    }
    r := Loaded(rows);
  }

  /** The payload lines before line `i`. */
  ghost function PayloadsBefore(lines: seq<Line>, i: nat): set<nat>
    requires i <= |lines|
  {
    set j: nat | j < i && lines[j].Payload?
  }

  /** The payloads are those of the payload lines, in the order of the lines. */
  lemma {:induction false} PayloadsInOrder(lines: seq<Line>, i: nat)
    requires i < |lines| && lines[i].Payload?
    ensures |PayloadsBefore(lines, i)| < |Payloads(lines)| == |PayloadsBefore(lines, |lines|)|
    ensures Payloads(lines)[|PayloadsBefore(lines, i)|] == lines[i].data
  {
    PayloadCount(lines);
    var n := |lines| - 1;
    if i < n {
      assert lines[..n][i] == lines[i];
      PayloadsInOrder(lines[..n], i);
      assert PayloadsBefore(lines[..n], i) == PayloadsBefore(lines, i);
    } else {
      PayloadCount(lines[..n]);
      assert PayloadsBefore(lines[..n], n) == PayloadsBefore(lines, n);
    }
  }

  lemma {:induction false} PayloadCount(lines: seq<Line>)
    ensures |Payloads(lines)| == |PayloadsBefore(lines, |lines|)|
  {
    if lines == [] {
      assert PayloadsBefore(lines, 0) == {};
    } else {
      var n := |lines| - 1;
      PayloadCount(lines[..n]);
      assert PayloadsBefore(lines, n + 1)
          == PayloadsBefore(lines[..n], n) + if lines[n].Payload? then {n} else {};
    }
  }

  /** The rows of each file stand together, in the order of the files. */
  lemma {:induction false} RowsOfFile(files: seq<seq<Line>>, n: nat, f: nat, p: nat)
    requires f < n <= |files| && p < |Payloads(files[f])|
    ensures var k := |AllRows(files, f)| + p;
            && k < |AllRows(files, n)|
            && AllRows(files, n)[k] == Row(Payloads(files[f])[p], f, k)
    ensures |AllRows(files, n)| == |AllRows(files, n - 1)| + |Payloads(files[n - 1])|
  {
    if f < n - 1 {
      RowsOfFile(files, n - 1, f, p);
    }
  }

  /** Row k of the whole directory has input index k. */
  lemma {:induction false} NumberedThroughout(files: seq<seq<Line>>, n: nat, k: nat)
    requires n <= |files| && k < |AllRows(files, n)|
    ensures AllRows(files, n)[k].index == k
    ensures AllRows(files, n)[k].file < n
  {
    if k < |AllRows(files, n - 1)| {
      NumberedThroughout(files, n - 1, k);
    }
  }

  /** A dict keyed by input index: a later row overwrites an earlier one with the same index. */
  ghost function KeyedByIndex(rows: seq<Row>): map<nat, Row> {
    if rows == [] then map[]
    else KeyedByIndex(rows[..|rows| - 1])[rows[|rows| - 1].index := rows[|rows| - 1]]
  }

  lemma {:induction false} KeyedPrefix(rows: seq<Row>, i: nat)
    requires forall k :: 0 <= k < |rows| ==> rows[k].index == k
    ensures i in KeyedByIndex(rows) <==> i < |rows|
    ensures i < |rows| ==> KeyedByIndex(rows)[i] == rows[i]
  {
    if rows != [] {
      KeyedPrefix(rows[..|rows| - 1], i);
    }
  }

  /** So keying the run sessions by input index loses no row and invents none. */
  lemma CaseRunsLoseNoRow(files: seq<seq<Line>>, i: nat)
    ensures var rows := AllRows(files, |files|);
            && (i in KeyedByIndex(rows) <==> i < |rows|)
            && (i < |rows| ==> KeyedByIndex(rows)[i] == rows[i])
  {
    var rows := AllRows(files, |files|);
    forall k | 0 <= k < |rows|
      ensures rows[k].index == k
    {
      NumberedThroughout(files, |files|, k);
    }
    KeyedPrefix(rows, i);
  }
}
