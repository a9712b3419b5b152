/**
 * The input loaders of src/load_places.py: a `.txt` file gives one place per non-blank
 * line, any other file is read as a CSV table with a name column and an optional address
 * column. The file system is a parameter: whether the path exists, the file's lines and,
 * for a CSV file, its header and rows as `csv.DictReader` delivers them.
 */
module Loader {
  import opened Optional
  import opened PyStrings
  import opened Places

  /** A row as `csv.DictReader` gives it: header to cell, `None` for a missing cell. */
  type Row = map<string, Option<string>>

  datatype LoadError =
    | FileNotFound(path: string)
    /** The exception raised on a table with rows but no usable header. */
    | NoHeader

  /** What a loader returns: the records, or the exception it raises. */
  datatype Loaded = Loaded(places: seq<Place>) | Failed(error: LoadError)

  // ----- reading a file record by record -----

  /** The records of a file: those of each line or row, concatenated in order. */
  function FlatMap<T, U>(xs: seq<T>, f: T -> seq<U>): seq<U>
    decreases |xs|
  {
    if xs == [] then [] else FlatMap(xs[..|xs| - 1], f) + f(xs[|xs| - 1])
  }

  /** At most one record per element gives at most as many records as elements. */
  lemma {:induction false} FlatMapShort<T, U>(xs: seq<T>, f: T -> seq<U>)
    requires forall i :: 0 <= i < |xs| ==> |f(xs[i])| <= 1
    ensures |FlatMap(xs, f)| <= |xs|
    decreases |xs|
  {
    if xs != [] {
      FlatMapShort(xs[..|xs| - 1], f);
    }
  }

  /** Reading one more element appends its records. */
  lemma FlatMapSnoc<T, U>(xs: seq<T>, f: T -> seq<U>, j: nat)
    requires j < |xs|
    ensures FlatMap(xs[..j + 1], f) == FlatMap(xs[..j], f) + f(xs[j])
  {
    assert xs[..j + 1][..j] == xs[..j];
  }

  lemma {:induction false} FlatMapConcat<T, U>(a: seq<T>, b: seq<T>, f: T -> seq<U>)
    ensures FlatMap(a + b, f) == FlatMap(a, f) + FlatMap(b, f)
    decreases |b|
  {
    if b == [] {
      assert a + b == a;
    } else {
      var init := b[..|b| - 1];
      var last := b[|b| - 1];
      assert (a + b)[..|a + b| - 1] == a + init;
      assert (a + b)[|a + b| - 1] == last;
      calc {
        FlatMap(a + b, f);
        FlatMap(a + init, f) + f(last);
        { FlatMapConcat(a, init, f); }
        FlatMap(a, f) + FlatMap(init, f) + f(last);
        FlatMap(a, f) + (FlatMap(init, f) + f(last));
      }
    }
  }

  lemma FlatMapSplit<T, U>(xs: seq<T>, f: T -> seq<U>, j: nat)
    requires j < |xs|
    ensures FlatMap(xs, f) == FlatMap(xs[..j], f) + f(xs[j]) + FlatMap(xs[j + 1..], f)
  {
    var front := xs[..j + 1];
    assert xs == front + xs[j + 1..];
    FlatMapConcat(front, xs[j + 1..], f);
    FlatMapSnoc(xs, f, j);
  }

  /** Every record comes from some element. */
  lemma {:induction false} FlatMapFrom<T, U>(xs: seq<T>, f: T -> seq<U>, i: nat) returns (j: nat)
    requires i < |FlatMap(xs, f)|
    ensures j < |xs| && FlatMap(xs, f)[i] in f(xs[j])
    decreases |xs|
  {
    var init := xs[..|xs| - 1];
    var front := FlatMap(init, f);
    if i < |front| {
      j := FlatMapFrom(init, f, i);
    } else {
      j := |xs| - 1;
      assert FlatMap(xs, f)[i] == f(xs[j])[i - |front|];
    }
  }

  // ----- .txt files -----

  /** The record one line contributes: `{"name": line.strip()}` unless that is empty. */
  function LineRecord(line: string): (r: seq<Place>)
    ensures |r| <= 1
    ensures r != [] <==> Strip(line) != ""
    ensures r != [] ==> r[0] == OnlyName(Strip(line))
  {
    if Strip(line) != "" then [OnlyName(Strip(line))] else []
  }

  /** The records of `_load_txt`, line by line in file order. */
  function TxtRecords(lines: seq<string>): (r: seq<Place>)
    ensures |r| <= |lines|
  {
    FlatMapShort(lines, LineRecord);
    FlatMap(lines, LineRecord)
  }

  /** Every record holds a non-empty, stripped name and nothing else, and comes from a
      line of the file. */
  lemma TxtRecordsShape(lines: seq<string>, i: nat)
    requires i < |TxtRecords(lines)|
    ensures exists j :: 0 <= j < |lines| && TxtRecords(lines)[i] == OnlyName(Strip(lines[j]))
    ensures var p := TxtRecords(lines)[i];
      p == OnlyName(NameOf(p)) && NameOf(p) != "" && Strip(NameOf(p)) == NameOf(p)
  {
    var j := FlatMapFrom(lines, LineRecord, i);
    var name := Strip(lines[j]);
    assert TxtRecords(lines)[i] == OnlyName(name);
    StripIdempotent(lines[j]);
  }

  /** Every line that is not blank gives a record, at its place in the file. */
  lemma EveryNameKept(lines: seq<string>, j: nat)
    requires j < |lines| && Strip(lines[j]) != ""
    ensures TxtRecords(lines) == TxtRecords(lines[..j]) + [OnlyName(Strip(lines[j]))] + TxtRecords(lines[j + 1..])
  {
    FlatMapSplit(lines, LineRecord, j);
  }

  /** A file's lines in two parts give the records of each part, in order. */
  lemma TxtRecordsConcat(a: seq<string>, b: seq<string>)
    ensures TxtRecords(a + b) == TxtRecords(a) + TxtRecords(b)
  {
    FlatMapConcat(a, b, LineRecord);
  }

  /** `_load_txt`, over the lines of the file. */
  method LoadTxt(lines: seq<string>) returns (places: seq<Place>)
    ensures places == TxtRecords(lines)
  {
    places := [];
    for j := 0 to |lines|
      invariant places == TxtRecords(lines[..j])
    {
      FlatMapSnoc(lines, LineRecord, j);
      var name := Strip(lines[j]);
      if name != "" {
        places := places + [OnlyName(name)];
      }
    }
    assert lines[..|lines|] == lines;
  }

  // ----- CSV files -----

  /** A header naming the place column: `name`, `place` or `title`, in any case and padding. */
  predicate IsNameHeader(h: string) {
    Lower(Strip(h)) in ["name", "place", "title"]
  }

  /** A header naming the address column. */
  predicate IsAddressHeader(h: string) {
    Lower(Strip(h)) == "address"
  }

  /** The index of the first element of `xs` that satisfies `p`, if any. */
  function FirstIndex(xs: seq<string>, p: string -> bool): (r: Option<nat>)
    ensures r.Some? ==> r.value < |xs| && p(xs[r.value]) && forall j :: 0 <= j < r.value ==> !p(xs[j])
    ensures r.None? ==> forall j :: 0 <= j < |xs| ==> !p(xs[j])
    decreases |xs|
  {
    if xs == [] then None
    else if p(xs[0]) then Some(0)
    else
      match FirstIndex(xs[1..], p)
      case None => None
      case Some(k) => Some(k + 1)
  }

  /** The name column: the first name-like header, else the first header. */
  function NameColumn(header: seq<string>): (c: string)
    requires |header| > 0
    ensures c in header
    ensures (forall j :: 0 <= j < |header| ==> !IsNameHeader(header[j])) ==> c == header[0]
    ensures (exists j :: 0 <= j < |header| && IsNameHeader(header[j])) ==>
      exists i :: (0 <= i < |header| && header[i] == c && IsNameHeader(c)
        && forall j :: 0 <= j < i ==> !IsNameHeader(header[j]))
  {
    match FirstIndex(header, IsNameHeader)
    case Some(i) => header[i]
    case None => header[0]
  }

  /** The address column: the first address header, if there is one. */
  function AddressColumn(header: seq<string>): (c: Option<string>)
    ensures c.None? <==> forall j :: 0 <= j < |header| ==> !IsAddressHeader(header[j])
    ensures c.Some? ==> exists i :: (0 <= i < |header| && header[i] == c.value && IsAddressHeader(c.value)
      && forall j :: 0 <= j < i ==> !IsAddressHeader(header[j]))
  {
    match FirstIndex(header, IsAddressHeader)
    case Some(i) => Some(header[i])
    case None => None
  }

  /** `row.get(col) or ""`. */
  function Cell(row: Row, col: string): string {
    if col in row && row[col].Some? then row[col].value else ""
  }

  /** The record one row contributes: none for a blank name; the address, stripped,
      only when there is an address column and the row's cell is not empty. */
  function RowRecord(row: Row, nameCol: string, addrCol: Option<string>): (r: seq<Place>)
    ensures |r| <= 1
    ensures r != [] <==> Strip(Cell(row, nameCol)) != ""
    ensures r != [] ==> r[0].name == Some(Strip(Cell(row, nameCol)))
    ensures r != [] ==> r[0].(name := None, address := None) == Empty
    ensures r != [] ==> (r[0].address.Some? <==> addrCol.Some? && Cell(row, addrCol.value) != "")
    ensures r != [] && r[0].address.Some? ==> r[0].address.value == Strip(Cell(row, addrCol.value))
  {
    var name := Strip(Cell(row, nameCol));
    if name == "" then []
    else if addrCol.Some? && Cell(row, addrCol.value) != "" then
      [OnlyName(name).(address := Some(Strip(Cell(row, addrCol.value))))]
    else [OnlyName(name)]
  }

  /** The records of `_load_csv`, row by row in file order. */
  function CsvRecords(rows: seq<Row>, nameCol: string, addrCol: Option<string>): (r: seq<Place>)
    ensures rows == [] ==> r == []
  {
    FlatMap(rows, row => RowRecord(row, nameCol, addrCol))
  }

  /** A table gives at most one record per row. */
  lemma CsvRecordsShort(rows: seq<Row>, nameCol: string, addrCol: Option<string>)
    ensures |CsvRecords(rows, nameCol, addrCol)| <= |rows|
  {
    FlatMapShort(rows, row => RowRecord(row, nameCol, addrCol));
  }

  /** Every record comes from a row: its name is that row's name cell, stripped and not
      empty; its address, when it has one, is that row's address cell, stripped; and it
      has no other key. */
  lemma CsvRecordsShape(rows: seq<Row>, nameCol: string, addrCol: Option<string>, i: nat)
    requires i < |CsvRecords(rows, nameCol, addrCol)|
    ensures exists j :: 0 <= j < |rows| && CsvRecords(rows, nameCol, addrCol)[i] in RowRecord(rows[j], nameCol, addrCol)
    ensures var p := CsvRecords(rows, nameCol, addrCol)[i];
      NameOf(p) != "" && Strip(NameOf(p)) == NameOf(p) && p.(name := None, address := None) == Empty
        && (p.address.Some? ==> addrCol.Some?)
  {
    var j := FlatMapFrom(rows, row => RowRecord(row, nameCol, addrCol), i);
    RowRecordShape(rows[j], nameCol, addrCol, CsvRecords(rows, nameCol, addrCol)[i]);
  }

  /** The record of one row has a stripped, non-empty name and at most an address. */
  lemma RowRecordShape(row: Row, nameCol: string, addrCol: Option<string>, p: Place)
    requires p in RowRecord(row, nameCol, addrCol)
    ensures NameOf(p) != "" && Strip(NameOf(p)) == NameOf(p) && p.(name := None, address := None) == Empty
    ensures p.address.Some? ==> addrCol.Some?
  {
    var r := RowRecord(row, nameCol, addrCol);
    assert p == r[0];
    StripIdempotent(Cell(row, nameCol));
  }

  /** Every row with a name gives a record, at its place in the table. */
  lemma EveryRowKept(rows: seq<Row>, nameCol: string, addrCol: Option<string>, j: nat)
    requires j < |rows| && Strip(Cell(rows[j], nameCol)) != ""
    ensures CsvRecords(rows, nameCol, addrCol) ==
      CsvRecords(rows[..j], nameCol, addrCol) + RowRecord(rows[j], nameCol, addrCol) + CsvRecords(rows[j + 1..], nameCol, addrCol)
    ensures |RowRecord(rows[j], nameCol, addrCol)| == 1
  {
    FlatMapSplit(rows, row => RowRecord(row, nameCol, addrCol), j);
  }

  /** One more row adds that row's record, if any, at the end. */
  lemma CsvRecordsSnoc(rows: seq<Row>, nameCol: string, addrCol: Option<string>, j: nat)
    requires j < |rows|
    ensures CsvRecords(rows[..j + 1], nameCol, addrCol) == CsvRecords(rows[..j], nameCol, addrCol) + RowRecord(rows[j], nameCol, addrCol)
  {
    FlatMapSnoc(rows, row => RowRecord(row, nameCol, addrCol), j);
  }

  /** A table's rows in two parts give the records of each part, in order. */
  lemma CsvRecordsConcat(a: seq<Row>, b: seq<Row>, nameCol: string, addrCol: Option<string>)
    ensures CsvRecords(a + b, nameCol, addrCol) == CsvRecords(a, nameCol, addrCol) + CsvRecords(b, nameCol, addrCol)
  {
    FlatMapConcat(a, b, row => RowRecord(row, nameCol, addrCol));
  }

  /** `_load_csv` as a value: no rows give no places; otherwise the columns are chosen
      from the header and every row is read with them. */
  function CsvResult(header: seq<string>, rows: seq<Row>): (r: Loaded)
    ensures rows == [] ==> r == Loaded([])
    ensures rows != [] && header == [] ==> r == Failed(NoHeader)
    ensures r.Loaded? ==> |r.places| <= |rows|
  {
    if rows == [] then Loaded([])
    else if header == [] then Failed(NoHeader)
    else
      CsvRecordsShort(rows, NameColumn(header), AddressColumn(header));
      Loaded(CsvRecords(rows, NameColumn(header), AddressColumn(header)))
  }

  /** `_load_csv`, over the header and rows of the file. */
  method LoadCsv(header: seq<string>, rows: seq<Row>) returns (r: Loaded)
    ensures r == CsvResult(header, rows)
  {
    if rows == [] {
      return Loaded([]);
    }
    if header == [] {
      return Failed(NoHeader);
    }
    var places := ReadRows(rows, NameColumn(header), AddressColumn(header));
    return Loaded(places);
  }

  /** The loop of `_load_csv` over the rows, with the chosen columns. */
  method ReadRows(rows: seq<Row>, nameCol: string, addrCol: Option<string>) returns (places: seq<Place>)
    ensures places == CsvRecords(rows, nameCol, addrCol)
  {
    places := [];
    for j := 0 to |rows|
      invariant places == CsvRecords(rows[..j], nameCol, addrCol)
    {
      CsvRecordsSnoc(rows, nameCol, addrCol, j);
      var row := rows[j];
      var name := Strip(Cell(row, nameCol));
      if name != "" {
        var item := OnlyName(name);
        if addrCol.Some? && Cell(row, addrCol.value) != "" {
          item := item.(address := Some(Strip(Cell(row, addrCol.value))));
        }
        assert RowRecord(row, nameCol, addrCol) == [item];
        places := places + [item];
      }
    }
    assert rows[..|rows|] == rows;
  }

  // ----- dispatch by suffix -----

  /** The last path component: everything after the last `/`. */
  function BaseName(path: string): (name: string)
    ensures '/' !in name
    ensures |name| <= |path| && name == path[|path| - |name|..]
    ensures |name| < |path| ==> path[|path| - |name| - 1] == '/'
    decreases |path|
  {
    if path == [] || path[|path| - 1] == '/' then []
    else BaseName(path[..|path| - 1]) + [path[|path| - 1]]
  }

  /** `name.rfind('.')`: the index of the last dot, or -1. */
  function LastDot(name: string): (i: int)
    ensures -1 <= i < |name|
    ensures i >= 0 ==> name[i] == '.' && forall j :: i < j < |name| ==> name[j] != '.'
    ensures i == -1 ==> forall j :: 0 <= j < |name| ==> name[j] != '.'
    decreases |name|
  {
    if name == [] then -1
    else if name[|name| - 1] == '.' then |name| - 1
    else LastDot(name[..|name| - 1])
  }

  /** A path without a separator is its own last component. */
  lemma {:induction false} BaseNameWithoutSlash(path: string)
    requires '/' !in path
    ensures BaseName(path) == path
    decreases |path|
  {
    if path != [] {
      BaseNameWithoutSlash(path[..|path| - 1]);
    }
  }

  /** The last dot is the dot with no dot after it. */
  lemma {:induction false} LastDotIs(name: string, i: nat)
    requires i < |name| && name[i] == '.' && forall j :: i < j < |name| ==> name[j] != '.'
    ensures LastDot(name) == i
    decreases |name|
  {
    if i < |name| - 1 {
      LastDotIs(name[..|name| - 1], i);
    }
  }

  /** `Path.suffix`: from the last dot of the last component, unless that dot begins
      or ends the component. */
  function Suffix(path: string): (s: string)
    ensures s == "" || (s[0] == '.' && '/' !in s && 1 < |s| && forall j :: 0 < j < |s| ==> s[j] != '.')
    ensures |s| <= |path| && s == path[|path| - |s|..]
  {
    var name := BaseName(path);
    var i := LastDot(name);
    if 0 < i < |name| - 1 then
      assert name[i..] == path[|path| - |name| + i..];
      name[i..]
    else ""
  }

  /** A suffix starts after the first character of the last component. */
  lemma SuffixShorter(path: string)
    ensures Suffix(path) != "" ==> |Suffix(path)| < |path|
  {
  }

  /** The last component of a path is what follows its last separator. */
  lemma {:induction false} BaseNameAfterSlash(dir: string, name: string)
    requires dir == "" || dir[|dir| - 1] == '/'
    requires '/' !in name
    ensures BaseName(dir + name) == name
    decreases |name|
  {
    if name == [] {
      assert dir + name == dir;
    } else {
      var init := name[..|name| - 1];
      assert (dir + name)[..|dir + name| - 1] == dir + init;
      BaseNameAfterSlash(dir, init);
    }
  }

  /** A file `stem` + `ext` in any directory has suffix `ext`, when `ext` is a dot and
      then at least one character that is neither a dot nor a separator, and the stem is
      not empty. */
  lemma SuffixOf(dir: string, stem: string, ext: string)
    requires dir == "" || dir[|dir| - 1] == '/'
    requires stem != "" && '/' !in stem
    requires |ext| >= 2 && ext[0] == '.'
    requires forall j :: 0 < j < |ext| ==> ext[j] != '.' && ext[j] != '/'
    ensures Suffix(dir + stem + ext) == ext
  {
    var name := stem + ext;
    assert dir + stem + ext == dir + name;
    ExtensionAfterStem(stem, ext);
    BaseNameAfterSlash(dir, name);
    SuffixAt(dir + name, name, |stem|);
  }

  /** A stem and an extension without separators: the last dot of the name is the
      extension's dot. */
  lemma ExtensionAfterStem(stem: string, ext: string)
    requires '/' !in stem
    requires |ext| >= 2 && ext[0] == '.'
    requires forall j :: 0 < j < |ext| ==> ext[j] != '.' && ext[j] != '/'
    ensures '/' !in stem + ext
    ensures LastDot(stem + ext) == |stem| && (stem + ext)[|stem|..] == ext
  {
    var name := stem + ext;
    forall k | 0 <= k < |name|
      ensures name[k] != '/'
    {
      if k >= |stem| {
        assert name[k] == ext[k - |stem|];
      }
    }
    assert forall j :: |stem| < j < |name| ==> name[j] == ext[j - |stem|];
    LastDotIs(name, |stem|);
    assert name[|stem|..] == ext;
  }

  /** Such a file is read as text exactly when its extension is `.txt` in any case. */
  lemma TxtFileIsTxt(dir: string, stem: string, ext: string)
    requires dir == "" || dir[|dir| - 1] == '/'
    requires stem != "" && '/' !in stem
    requires |ext| >= 2 && ext[0] == '.'
    requires forall j :: 0 < j < |ext| ==> ext[j] != '.' && ext[j] != '/'
    ensures IsTxt(dir + stem + ext) <==> Lower(ext) == ".txt"
  {
    SuffixOf(dir, stem, ext);
  }

  lemma SuffixAt(path: string, name: string, i: nat)
    requires BaseName(path) == name && LastDot(name) == i && 0 < i < |name| - 1
    ensures Suffix(path) == name[i..]
  {
  }

  /** The test `path.suffix.lower() == ".txt"`. */
  predicate IsTxt(path: string)
    ensures IsTxt(path) ==> |path| > 4 && Lower(path[|path| - 4..]) == ".txt"
  {
    SuffixShorter(path);
    Lower(Suffix(path)) == ".txt"
  }

  /** A file named just `.txt` has no suffix, so it is read as CSV. */
  lemma HiddenTxtIsCsv(path: string)
    requires path == ".txt"
    ensures !IsTxt(path)
  {
    BaseNameWithoutSlash(path);
    LastDotIs(path, 0);
  }

  /** The suffix test ignores case. */
  lemma UpperTxtIsTxt(path: string)
    requires path == "a.TXT"
    ensures IsTxt(path)
  {
    BaseNameWithoutSlash(path);
    LastDotIs(path, 1);
    assert Suffix(path) == ".TXT";
  }

  /** `load_places`: a missing file raises; a `.txt` file is read line by line; any
      other file is read as CSV. */
  method LoadPlaces(path: string, fileExists: bool, lines: seq<string>, header: seq<string>, rows: seq<Row>)
    returns (r: Loaded)
    ensures !fileExists ==> r == Failed(FileNotFound(path))
    ensures fileExists && IsTxt(path) ==> r == Loaded(TxtRecords(lines))
    ensures fileExists && !IsTxt(path) ==> r == CsvResult(header, rows)
  {
    if !fileExists {
      return Failed(FileNotFound(path));
    }
    if Lower(Suffix(path)) == ".txt" {
      var places := LoadTxt(lines);
      return Loaded(places);
    }
    r := LoadCsv(header, rows);
  }
}
