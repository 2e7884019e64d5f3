// `parseCsv` without its cache: header cleaning, `array_combine`, the row
// filter and `array_slice`. The file arrives already split into fields.

module Csv {
  import opened Php
  import opened ReportConfig

  /** What `fopen` and `fgetcsv` yield for one data file. */
  datatype CsvSource = CsvSource(opens: bool, header: Option<seq<string>>, rows: seq<seq<string>>)

  /** The UTF-8 byte order mark, as three bytes. */
  function Bom(): string
  {
    [0xEF as char, 0xBB as char, 0xBF as char]
  }

  /** `preg_replace('/^\xEF\xBB\xBF/', '', $h)`: one leading mark goes. */
  function StripBom(h: string): (r: string)
    ensures |h| >= 3 && h[..3] == Bom() ==> h == Bom() + r
    ensures !(|h| >= 3 && h[..3] == Bom()) ==> r == h
  {
    if |h| >= 3 && h[..3] == Bom() then h[3..] else h
  }

  /** One header cell: mark removed, then trimmed. */
  function CleanHeader(h: string): (r: string)
    ensures r == [] || (r[0] !in WhiteSpace && r[|r| - 1] !in WhiteSpace)
    ensures |r| <= |h|
  {
    var t := TrimLeft(StripBom(h), WhiteSpace);
    TrimRight(t, WhiteSpace)
  }

  function CleanHeaders(hs: seq<string>): (r: seq<string>)
    ensures |r| == |hs|
    ensures forall i :: 0 <= i < |hs| ==> r[i] == CleanHeader(hs[i])
  {
    if hs == [] then [] else [CleanHeader(hs[0])] + CleanHeaders(hs[1..])
  }

  /** A header carrying the byte order mark is cleaned like one without it. */
  lemma CleanHeaderBom(h: string)
    ensures CleanHeader(Bom() + h) == Trim(h, WhiteSpace)
  {
    assert (Bom() + h)[..3] == Bom();
    assert (Bom() + h)[3..] == h;
  }

  /**
   * `array_combine($headers, $row)`: the cells keyed by the headers. A
   * repeated header keeps the position of its first occurrence and takes
   * its last cell.
   */
  function Combine(hs: seq<string>, row: seq<string>): Record
    requires |hs| == |row|
  {
    if hs == [] then []
    else Put(Combine(hs[..|hs| - 1], row[..|row| - 1]), hs[|hs| - 1], row[|row| - 1])
  }

  lemma {:induction false} CombineDistinct(hs: seq<string>, row: seq<string>)
    requires |hs| == |row|
    ensures KeysDistinct(Combine(hs, row))
    decreases |hs|
  {
    if hs != [] {
      CombineDistinct(hs[..|hs| - 1], row[..|row| - 1]);
      PutKeysDistinct(Combine(hs[..|hs| - 1], row[..|row| - 1]), hs[|hs| - 1], row[|row| - 1]);
    }
  }

  /** A header takes the cell of its last occurrence: a later cell overwrites an earlier one. */
  lemma {:induction false} CombineLast(hs: seq<string>, row: seq<string>, i: int)
    requires |hs| == |row| && 0 <= i < |hs|
    requires forall j :: i < j < |hs| ==> hs[j] != hs[i]
    ensures Lookup(Combine(hs, row), hs[i]) == Some(row[i])
    decreases |hs|
  {
    var n := |hs| - 1;
    var init := Combine(hs[..n], row[..n]);
    PutLookup(init, hs[n], row[n], hs[i]);
    if i < n {
      CombineLast(hs[..n], row[..n], i);
    }
  }

  predicate Distinct(hs: seq<string>)
  {
    forall i, j :: 0 <= i < j < |hs| ==> hs[i] != hs[j]
  }

  /** With distinct headers, the record's keys are the headers in order. */
  lemma {:induction false} CombineKeys(hs: seq<string>, row: seq<string>)
    requires |hs| == |row| && Distinct(hs)
    ensures Keys(Combine(hs, row)) == hs
    decreases |hs|
  {
    if hs != [] {
      var n := |hs| - 1;
      var init := hs[..n];
      var m := Combine(init, row[..n]);
      assert Distinct(init);
      CombineKeys(init, row[..n]);
      assert hs[n] !in Keys(m) by {
        forall j | 0 <= j < n ensures init[j] != hs[n] {
          assert init[j] == hs[j];
        }
      }
      assert Combine(hs, row) == Put(m, hs[n], row[n]);
      PutKeys(m, hs[n], row[n]);
      assert hs == init + [hs[n]];
    }
  }

  /** With distinct headers, each header finds the cell at its own position. */
  lemma {:induction false} CombineLookup(hs: seq<string>, row: seq<string>, i: int)
    requires |hs| == |row| && Distinct(hs) && 0 <= i < |hs|
    ensures Lookup(Combine(hs, row), hs[i]) == Some(row[i])
    decreases |hs|
  {
    var n := |hs| - 1;
    var init := hs[..n];
    PutLookup(Combine(init, row[..n]), hs[n], row[n], hs[i]);
    if i < n {
      assert Distinct(init);
      assert init[i] == hs[i] && row[..n][i] == row[i];
      CombineLookup(init, row[..n], i);
    }
  }

  /** The rows `parseCsv` keeps: those with as many cells as headers. */
  function MatchingRows(hs: seq<string>, rows: seq<seq<string>>): (r: seq<seq<string>>)
    ensures forall i :: 0 <= i < |r| ==> |r[i]| == |hs| && r[i] in rows
    ensures forall row :: row in rows && |row| == |hs| ==> row in r
  {
    if rows == [] then []
    else
      var init := rows[..|rows| - 1];
      var last := rows[|rows| - 1];
      assert rows == init + [last];
      MatchingRows(hs, init) + (if |last| == |hs| then [last] else [])
  }

  /** A single row is kept exactly when it has as many cells as headers. */
  lemma MatchingRowsSingle(hs: seq<string>, row: seq<string>)
    ensures MatchingRows(hs, [row]) == if |row| == |hs| then [row] else []
  {
    assert [row][..0] == [];
  }

  /**
   * Filtering keeps the file's order: the rows of two stretches of the file
   * are the rows of the first followed by those of the second.
   */
  lemma {:induction false} MatchingRowsAppend(hs: seq<string>, a: seq<seq<string>>, b: seq<seq<string>>)
    ensures MatchingRows(hs, a + b) == MatchingRows(hs, a) + MatchingRows(hs, b)
    decreases |b|
  {
    if b == [] {
      assert a + b == a;
    } else {
      var init := b[..|b| - 1];
      var last := b[|b| - 1];
      var tail := if |last| == |hs| then [last] else [];
      assert (a + b)[..|a + b| - 1] == a + init;
      assert (a + b)[|a + b| - 1] == last;
      assert MatchingRows(hs, a + b) == MatchingRows(hs, a + init) + tail;
      MatchingRowsAppend(hs, a, init);
      assert MatchingRows(hs, b) == MatchingRows(hs, init) + tail;
    }
  }

  /** The while loop over `fgetcsv`, row by row: at most one record per row. */
  function ParseRows(hs: seq<string>, rows: seq<seq<string>>): (r: seq<Record>)
    ensures |r| <= |rows|
  {
    if rows == [] then []
    else
      var init := rows[..|rows| - 1];
      var last := rows[|rows| - 1];
      ParseRows(hs, init) + (if |last| == |hs| then [Combine(hs, last)] else [])
  }

  /** One more row read from the file. */
  lemma ParseRowsSnoc(hs: seq<string>, rows: seq<seq<string>>, row: seq<string>)
    ensures ParseRows(hs, rows + [row]) ==
              ParseRows(hs, rows) + (if |row| == |hs| then [Combine(hs, row)] else [])
  {
    var s := rows + [row];
    assert s[..|s| - 1] == rows;
  }

  /**
   * The parsed data is exactly the matching rows, in file order, each
   * combined with the headers.
   */
  lemma {:induction false} ParseRowsZips(hs: seq<string>, rows: seq<seq<string>>)
    ensures |ParseRows(hs, rows)| == |MatchingRows(hs, rows)|
    ensures forall i :: 0 <= i < |ParseRows(hs, rows)| ==>
              ParseRows(hs, rows)[i] == Combine(hs, MatchingRows(hs, rows)[i])
    decreases |rows|
  {
    if rows != [] {
      ParseRowsZips(hs, rows[..|rows| - 1]);
    }
  }

  /** Every parsed record has one key per distinct header. */
  lemma ParsedRecordsDistinct(hs: seq<string>, rows: seq<seq<string>>)
    ensures forall i :: 0 <= i < |ParseRows(hs, rows)| ==> KeysDistinct(ParseRows(hs, rows)[i])
  {
    ParseRowsZips(hs, rows);
    var m := MatchingRows(hs, rows);
    forall i | 0 <= i < |ParseRows(hs, rows)| ensures KeysDistinct(ParseRows(hs, rows)[i]) {
      CombineDistinct(hs, m[i]);
    }
  }

  /**
   * `array_slice($data, 0, $limit)`, or the whole data for a null limit: a
   * prefix of `min(limit, n)` records, or of `n + limit` (at least 0) for
   * a negative limit.
   */
  function Slice<T>(data: seq<T>, limit: Option<int>): (r: seq<T>)
    ensures |r| <= |data| && r == data[..|r|]
    ensures limit.None? ==> r == data
    ensures limit.Some? && limit.value >= 0 ==>
              |r| == if limit.value < |data| then limit.value else |data|
    ensures limit.Some? && limit.value < 0 ==>
              |r| == if |data| + limit.value > 0 then |data| + limit.value else 0
  {
    match limit
    case None => data
    case Some(l) =>
      var end := if l >= 0 then (if l < |data| then l else |data|)
                 else (if |data| + l > 0 then |data| + l else 0);
      data[..end]
  }

  /** The data a call works from: cached rows, a fresh parse, or none. */
  function CsvRows(cache: map<string, seq<Record>>, path: string, src: CsvSource): Option<seq<Record>>
  {
    if path in cache then Some(cache[path])
    else if !src.opens || src.header.None? then None
    else Some(ParseRows(CleanHeaders(src.header.value), src.rows))
  }

  /** What `parseCsv($path, $limit)` returns. */
  function CsvResult(cache: map<string, seq<Record>>, path: string, src: CsvSource, limit: Option<int>): seq<Record>
  {
    match CsvRows(cache, path, src)
    case None => []
    case Some(data) => Slice(data, limit)
  }

  /** The cache after the call: only a fresh, successful parse is stored. */
  function CsvCache(cache: map<string, seq<Record>>, path: string, src: CsvSource): map<string, seq<Record>>
  {
    if path in cache || !src.opens || src.header.None? then cache
    else cache[path := ParseRows(CleanHeaders(src.header.value), src.rows)]
  }

  /** Once a path is cached, the file's current contents do not matter. */
  lemma CachedIgnoresFile(cache: map<string, seq<Record>>, path: string, src1: CsvSource, src2: CsvSource, limit: Option<int>)
    requires path in cache
    ensures CsvResult(cache, path, src1, limit) == CsvResult(cache, path, src2, limit) == Slice(cache[path], limit)
    ensures CsvCache(cache, path, src1) == cache
  {
  }

  /**
   * A second call, whatever the file holds by then, sees the rows the
   * first call parsed; and the cache does not change again.
   */
  lemma SecondCallCached(cache: map<string, seq<Record>>, path: string, src: CsvSource, later: CsvSource, limit: Option<int>)
    requires CsvRows(cache, path, src).Some?
    ensures CsvResult(CsvCache(cache, path, src), path, later, limit) == Slice(CsvRows(cache, path, src).value, limit)
    ensures CsvCache(CsvCache(cache, path, src), path, later) == CsvCache(cache, path, src)
  {
  }

  /** A file that cannot be read yields no rows and is not cached. */
  lemma UnreadableNotCached(cache: map<string, seq<Record>>, path: string, src: CsvSource, limit: Option<int>)
    requires path !in cache && (!src.opens || src.header.None?)
    ensures CsvResult(cache, path, src, limit) == []
    ensures CsvCache(cache, path, src) == cache
  {
  }
}
