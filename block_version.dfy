/** The block-id conversion tables of the server (`TypeConverter` and
    `generate_versions`). The CSV has one line per block id of the latest
    version; its first cell is that id and every further cell is the id the
    block has in one older version. Here a CSV line is the sequence of its
    parsed cells. */
module BlockVersion {
  import opened Wrappers

  /** The tables for one older version: `toOld` indexed by the latest id,
      `toNew` from an old id back to a latest id. `column` is the CSV column
      the tables came from; the `BlockVersion` it names is not modelled. */
  datatype Version = Version(toOld: seq<nat>, toNew: map<nat, nat>, column: nat)

  /** The converter; a block version is given by its index (`to_index`). */
  datatype Converter = Converter(versions: seq<Version>)
  {
    /** The index of the latest version. The tables are ordered by index
        and `to_old` reads `versions[index - 1]`, so the latest version
        comes right after the last table. */
    function Latest(): (r: nat)
      ensures r == |versions| + 1
    {
      |versions| + 1
    }

    /** `to_old`: the latest id `id` as an id of version `ver`; 0 (air)
        past the end of the table. Indexes below 1 underflow and indexes
        above the latest one are out of bounds in the source. */
    function ToOld(id: nat, ver: nat): (r: nat)
      requires 1 <= ver <= Latest()
      ensures ver == Latest() ==> r == id
      ensures ver < Latest() && id >= |versions[ver - 1].toOld| ==> r == 0
      ensures ver < Latest() && id < |versions[ver - 1].toOld| ==> r == versions[ver - 1].toOld[id]
    {
      if ver == Latest() then id
      else
        var table := versions[ver - 1].toOld;
        if id < |table| then table[id] else 0
    }

    /** `to_latest` as written: it reads `versions[index]`, the table of
        the next version, where `to_old` reads `versions[index - 1]`. For
        the newest old version and the latest version that index is past
        the list and the source panics; that is `None` here. */
    function ToLatestAsWritten(id: nat, ver: nat): (r: Option<nat>)
      requires 1 <= ver <= Latest()
      ensures r.None? <==> ver >= |versions|
      ensures ver < |versions| && id !in versions[ver].toNew ==> r == Some(0)
      ensures ver < |versions| && id in versions[ver].toNew ==> r == Some(versions[ver].toNew[id])
    {
      if ver >= |versions| then None
      else
        var table := versions[ver].toNew;
        Some(if id in table then table[id] else 0)
    }

    /** `to_latest`, corrected to read the same table as `to_old`: the old
        id `id` of version `ver` as a latest id; 0 (air) for an id not in the
        table. Like `to_old` it keeps the id for the latest version, which
        has no table of its own; the source has no such branch. */
    function ToLatest(id: nat, ver: nat): (r: nat)
      requires 1 <= ver <= Latest()
      ensures ver == Latest() ==> r == id
      ensures ver < Latest() && id !in versions[ver - 1].toNew ==> r == 0
      ensures ver < Latest() && id in versions[ver - 1].toNew ==> r == versions[ver - 1].toNew[id]
    {
      if ver == Latest() then id
      else
        var table := versions[ver - 1].toNew;
        if id in table then table[id] else 0
    }
  }

  /** What `generate_versions` needs of the CSV: every line has at least
      one cell (`split` always yields one) and no line has more cells than
      the first, which fixes the number of versions. */
  predicate Parsable(rows: seq<seq<nat>>)
  {
    forall i :: 0 <= i < |rows| ==> 1 <= |rows[i]| <= |rows[0]|
  }

  /** Every line has as many cells as the first. */
  predicate Rectangular(rows: seq<seq<nat>>)
  {
    |rows| >= 1 && forall i :: 0 <= i < |rows| ==> |rows[i]| == |rows[0]|
  }

  /** The `to_old` table of column `c` after the first `n` lines: `[0]`,
      then the cell of every later line that has column `c`. */
  function OldTable(rows: seq<seq<nat>>, c: nat, n: nat): (r: seq<nat>)
    requires 1 <= n <= |rows|
    ensures |r| >= 1 && r[0] == 0
  {
    if n == 1 then [0]
    else
      var prev := OldTable(rows, c, n - 1);
      if c < |rows[n - 1]| then prev + [rows[n - 1][c]] else prev
  }

  /** The `to_new` map of column `c` after the first `n` lines: `{0: 0}`,
      then every cell mapped to its line number, a later line overwriting
      an earlier one. */
  function NewTable(rows: seq<seq<nat>>, c: nat, n: nat): (r: map<nat, nat>)
    requires 1 <= n <= |rows|
    ensures 0 in r
  {
    if n == 1 then map[0 := 0]
    else
      var prev := NewTable(rows, c, n - 1);
      if c < |rows[n - 1]| then prev[rows[n - 1][c] := n - 1] else prev
  }

  /** The versions after the first `n` lines, in column order. */
  function ParsedAfter(rows: seq<seq<nat>>, n: nat): (r: seq<Version>)
    requires 1 <= n <= |rows| && |rows[0]| >= 1
    ensures |r| == |rows[0]| - 1
  {
    seq(|rows[0]| - 1, k requires 0 <= k => Version(OldTable(rows, k + 1, n), NewTable(rows, k + 1, n), k + 1))
  }

  /** `s` back to front (`into_iter().rev().collect()`). */
  function Reverse<T>(s: seq<T>): (r: seq<T>)
    ensures |r| == |s| && forall i :: 0 <= i < |s| ==> r[i] == s[|s| - 1 - i]
  {
    if s == [] then [] else Reverse(s[1..]) + [s[0]]
  }

  /** The result of `generate_versions`: the versions of the last column
      first. */
  function Generated(rows: seq<seq<nat>>): (r: seq<Version>)
    requires Parsable(rows)
    ensures |rows| >= 1 ==> |r| == |rows[0]| - 1
    ensures |rows| >= 1 ==> forall k :: 0 <= k < |r| ==>
      r[k] == Version(OldTable(rows, |r| - k, |rows|), NewTable(rows, |r| - k, |rows|), |r| - k)
  {
    if |rows| == 0 then [] else Reverse(ParsedAfter(rows, |rows|))
  }

  /** `generate_versions`: the first line adds one version per further
      cell, each starting from `[0]` and `{0: 0}`; every later line `i`
      pushes its cell in column `j` onto the `to_old` table of version
      `j - 1` and maps it to `i` in that version's `to_new`. */
  method GenerateVersions(rows: seq<seq<nat>>) returns (versions: seq<Version>)
    requires Parsable(rows)
    ensures versions == Generated(rows)
  {
    var parsed: seq<Version> := [];
    var i := 0;
    while i < |rows|
      invariant 0 <= i <= |rows|
      invariant i == 0 ==> parsed == []
      invariant i > 0 ==> parsed == ParsedAfter(rows, i)
    {
      var row := rows[i];
      if i == 0 {
        var j := 1;
        while j < |row|
          invariant 1 <= j <= |row|
          invariant |parsed| == j - 1
          invariant forall k :: 0 <= k < j - 1 ==> parsed[k] == Version([0], map[0 := 0], k + 1)
        {
          parsed := parsed + [Version([0], map[0 := 0], j)];
          j := j + 1;
        }
      } else {
        var j := 1;
        while j < |row|
          invariant 1 <= j <= |row| <= |rows[0]|
          invariant |parsed| == |rows[0]| - 1
          invariant forall k :: 0 <= k < j - 1 ==>
            parsed[k] == Version(OldTable(rows, k + 1, i + 1), NewTable(rows, k + 1, i + 1), k + 1)
          invariant forall k :: j - 1 <= k < |parsed| ==>
            parsed[k] == Version(OldTable(rows, k + 1, i), NewTable(rows, k + 1, i), k + 1)
        {
          var v := row[j];
          var table := parsed[j - 1];
          parsed := parsed[j - 1 := Version(table.toOld + [v], table.toNew[v := i], table.column)];
          j := j + 1;
        }
      }
      i := i + 1;
    }
    versions := Reverse(parsed);
  }

  /** After the first line every version holds `[0]` and `{0: 0}`. */
  lemma FirstLineTables(rows: seq<seq<nat>>, k: nat)
    requires |rows| >= 1 && k < |rows[0]| - 1
    ensures ParsedAfter(rows, 1)[k].toOld == [0] && ParsedAfter(rows, 1)[k].toNew == map[0 := 0]
  {
  }

  /** With every line complete, the `to_old` table of column `c` holds the
      cell of line `i` at index `i`. */
  lemma {:induction false} OldTableCells(rows: seq<seq<nat>>, c: nat, n: nat)
    requires Rectangular(rows) && 1 <= n <= |rows| && c < |rows[0]|
    ensures |OldTable(rows, c, n)| == n
    ensures forall i :: 1 <= i < n ==> OldTable(rows, c, n)[i] == rows[i][c]
  {
    if n > 1 {
      OldTableCells(rows, c, n - 1);
    }
  }

  /** An id is a key of the `to_new` map of column `c` exactly when it is
      0 or a cell of that column. */
  lemma {:induction false} NewTableKeys(rows: seq<seq<nat>>, c: nat, n: nat, v: nat)
    requires 1 <= n <= |rows|
    ensures v in NewTable(rows, c, n) <==>
      v == 0 || exists i :: 1 <= i < n && c < |rows[i]| && rows[i][c] == v
  {
    if n > 1 {
      NewTableKeys(rows, c, n - 1, v);
      if c < |rows[n - 1]| && rows[n - 1][c] == v {
        assert 1 <= n - 1 < n && c < |rows[n - 1]| && rows[n - 1][c] == v;
      }
    }
  }

  /** The `to_new` map sends a key to the LAST line whose cell in column `c`
      holds it (line 0 for air when no line holds 0). */
  lemma {:induction false} NewTableLast(rows: seq<seq<nat>>, c: nat, n: nat, v: nat)
    requires 1 <= n <= |rows| && v in NewTable(rows, c, n)
    ensures var i := NewTable(rows, c, n)[v];
      i < n && (i == 0 ==> v == 0) && (i > 0 ==> c < |rows[i]| && rows[i][c] == v)
    ensures var i := NewTable(rows, c, n)[v];
      forall l :: i < l < n && c < |rows[l]| ==> rows[l][c] != v
  {
    if n > 1 {
      var prev := NewTable(rows, c, n - 1);
      if c < |rows[n - 1]| && rows[n - 1][c] == v {
      } else {
        NewTableLast(rows, c, n - 1, v);
      }
    }
  }

  /** With every line complete, looking a key up in `to_new` and the result
      in `to_old` gives the key back. */
  lemma TablesAgree(rows: seq<seq<nat>>, c: nat, v: nat)
    requires Rectangular(rows) && c < |rows[0]| && v in NewTable(rows, c, |rows|)
    ensures NewTable(rows, c, |rows|)[v] < |OldTable(rows, c, |rows|)|
    ensures OldTable(rows, c, |rows|)[NewTable(rows, c, |rows|)[v]] == v
  {
    OldTableCells(rows, c, |rows|);
    NewTableLast(rows, c, |rows|, v);
  }

  /** Converting a latest id of a generated converter to version `ver`
      reads the CSV cell of that id in the column of `ver`. */
  lemma ToOldReadsCell(rows: seq<seq<nat>>, ver: nat, id: nat)
    requires Rectangular(rows) && Parsable(rows)
    requires 1 <= ver < Converter(Generated(rows)).Latest() && 1 <= id < |rows|
    ensures var m := |rows[0]| - 1;
      Converter(Generated(rows)).ToOld(id, ver) == rows[id][m - ver + 1]
  {
    var m := |rows[0]| - 1;
    OldTableCells(rows, m - ver + 1, |rows|);
  }

  /** `to_latest` as written reads the `to_new` map of the column to the
      left of the one `to_old` reads for the same version. */
  lemma ToLatestAsWrittenReadsNextColumn(rows: seq<seq<nat>>, ver: nat)
    requires Parsable(rows) && |rows| >= 1 && 1 <= ver < |Generated(rows)|
    ensures var m := |rows[0]| - 1;
      Generated(rows)[ver].toNew == NewTable(rows, m - ver, |rows|) &&
      Generated(rows)[ver - 1].toOld == OldTable(rows, m - ver + 1, |rows|)
  {
  }

  /** The corrected `to_latest` undoes `to_old`: converting an old id of a
      generated converter to the latest version and back gives it back. */
  lemma ConverterRoundTrip(rows: seq<seq<nat>>, ver: nat, v: nat)
    requires Rectangular(rows) && Parsable(rows)
    requires 1 <= ver < Converter(Generated(rows)).Latest()
    requires v in Generated(rows)[ver - 1].toNew
    ensures var conv := Converter(Generated(rows));
      conv.ToOld(conv.ToLatest(v, ver), ver) == v
  {
    var m := |rows[0]| - 1;
    TablesAgree(rows, m - ver + 1, v);
  }

  /** A two-version CSV on which `to_latest` as written does not undo
      `to_old`: latest id 1 is 7 in version 1, but 7 is not a key of the
      table `to_latest` reads, so it comes back as air; for version 2 it
      indexes past the list. */
  lemma ToLatestMissesTable()
    ensures var rows := [[0, 0, 0], [1, 5, 7]];
      var conv := Converter(Generated(rows));
      conv.ToOld(1, 1) == 7 && conv.ToLatestAsWritten(7, 1) == Some(0) && conv.ToLatest(7, 1) == 1
    ensures var rows := [[0, 0, 0], [1, 5, 7]];
      var conv := Converter(Generated(rows));
      conv.ToOld(1, 2) == 5 && conv.ToLatestAsWritten(5, 2) == None && conv.ToLatest(5, 2) == 1
  {
    var rows := [[0, 0, 0], [1, 5, 7]];
    assert Parsable(rows);
    assert OldTable(rows, 2, 2) == [0, 7];
    assert NewTable(rows, 1, 2) == map[0 := 0, 5 := 1];
    assert NewTable(rows, 2, 2) == map[0 := 0, 7 := 1];
  }
}
