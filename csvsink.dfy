/** The CSV file sink of the DAG task: a dated file is created with a
    header line when absent, otherwise the rows are appended without one.
    The data directory is abstract state: a map from path to the lines of
    the file at that path; a path is a key exactly when the file exists. */
module CsvSink {
  import opened Normalize

  datatype CsvLine = Header | Record(row: Row)

  type Files = map<string, seq<CsvLine>>

  function Records(rows: seq<Row>): (r: seq<CsvLine>)
    ensures |r| == |rows| && forall i :: 0 <= i < |rows| ==> r[i] == Record(rows[i])
  {
    seq(|rows|, i requires 0 <= i < |rows| => Record(rows[i]))
  }

  /** The directory after `to_csv(path, index=False)` when the file is absent,
      or `to_csv(path, mode='a', header=False, index=False)` when it exists. */
  function WriteFile(files: Files, path: string, rows: seq<Row>): Files {
    if path in files then files[path := files[path] + Records(rows)]
    else files[path := [Header] + Records(rows)]
  }

  /** A file as this sink writes it: one header line first, data lines after. */
  ghost predicate WellFormed(lines: seq<CsvLine>) {
    |lines| >= 1 && lines[0] == Header && forall i :: 1 <= i < |lines| ==> lines[i].Record?
  }

  /** The data rows of a file, in file order. */
  function DataRows(lines: seq<CsvLine>): seq<Row> {
    if lines == [] then []
    else
      var last := match lines[|lines| - 1] case Header => [] case Record(r) => [r];
      DataRows(lines[..|lines| - 1]) + last
  }

  lemma {:induction false} DataRowsAppend(a: seq<CsvLine>, rows: seq<Row>)
    ensures DataRows(a + Records(rows)) == DataRows(a) + rows
    decreases |rows|
  {
    if rows == [] {
      assert a + Records(rows) == a;
    } else {
      var n := |rows| - 1;
      assert (a + Records(rows))[..|a + Records(rows)| - 1] == a + Records(rows[..n]);
      DataRowsAppend(a, rows[..n]);
      assert rows == rows[..n] + [rows[n]];
    }
  }

  /**
   * After a write the file at `path` holds one header line followed by the
   * rows of earlier writes and then the new rows, and every other file is
   * untouched; well-formed files stay well-formed.
   */
  lemma WriteFileSpec(files: Files, path: string, rows: seq<Row>)
    requires path in files ==> WellFormed(files[path])
    ensures path in WriteFile(files, path, rows)
    ensures WellFormed(WriteFile(files, path, rows)[path])
    ensures DataRows(WriteFile(files, path, rows)[path]) == (if path in files then DataRows(files[path]) else []) + rows
    ensures path in files ==> files[path] <= WriteFile(files, path, rows)[path]
    ensures forall p :: p != path ==>
              && (p in files <==> p in WriteFile(files, path, rows))
              && (p in files ==> WriteFile(files, path, rows)[p] == files[p])
  {
    if path in files {
      DataRowsAppend(files[path], rows);
    } else {
      DataRowsAppend([Header], rows);
      assert DataRows([Header]) == [] by { assert [Header][..0] == []; }
    }
  }

  /** Two runs on one date (one rider, then the next) leave the same file as one run with both riders' rows. */
  lemma WritesAccumulate(files: Files, path: string, first: seq<Row>, second: seq<Row>)
    ensures WriteFile(WriteFile(files, path, first), path, second) == WriteFile(files, path, first + second)
  {
    assert Records(first + second) == Records(first) + Records(second);
    if path in files {
      assert files[path] + Records(first) + Records(second) == files[path] + Records(first + second);
    } else {
      assert [Header] + Records(first) + Records(second) == [Header] + Records(first + second);
    }
  }

  /** The file sink is not idempotent: writing the same rows twice leaves
      them in the file twice. */
  lemma WriteTwiceDuplicates(files: Files, path: string, rows: seq<Row>)
    requires path in files ==> WellFormed(files[path])
    ensures DataRows(WriteFile(WriteFile(files, path, rows), path, rows)[path]) ==
              (if path in files then DataRows(files[path]) else []) + rows + rows
  {
    WriteFileSpec(files, path, rows);
    WriteFileSpec(WriteFile(files, path, rows), path, rows);
  }

  /** The directory the DAG writes its daily files into. */
  class DataDir {
    var files: Files

    constructor (initial: Files)
      ensures files == initial
    {
      files := initial;
    }

    /** The write at the end of `peloton_to_local`: a header only when the
        file does not exist yet. */
    method WriteCsv(path: string, rows: seq<Row>)
      modifies this
      ensures files == WriteFile(old(files), path, rows)
    {
      if path !in files {
        files := files[path := [Header] + Records(rows)];
      } else {
        files := files[path := files[path] + Records(rows)];
      }
    }
  }
}
