/** The conversion run `process`: rows are validated, bad rows go to the
    reject log, good rows become items, and the items are written in
    numbered bulk files of at most `split_size` items each. */
module Bulk {
  import opened PyStr
  import opened Utf8
  import opened Fields
  import opened Items

  /** One CSV record, already split at ';' into cells. */
  type Row = seq<Str>

  /** Every column `process` reads is mapped and lies inside the row. */
  predicate RowFits(row: Row, fm: FieldMap)
  {
    forall i :: 0 <= i < |FIELDS| ==> FIELDS[i] in fm && fm[FIELDS[i]] < |row|
  }

  /** Every row that survives `is_bad` is long enough to be read. */
  predicate GoodRowsFit(rows: seq<Row>, fm: FieldMap)
  {
    forall k :: 0 <= k < |rows| && !IsBad(rows[k]) ==> RowFits(rows[k], fm)
  }

  /** `row[fields[f]]`. */
  function Cell(row: Row, fm: FieldMap, f: Field): Str
    requires RowFits(row, fm)
  {
    row[fm[FIELDS[Position(f)]]]
  }

  /** The item `process` builds from a good row. */
  function RowItem(row: Row, fm: FieldMap): Element
    requires RowFits(row, fm)
  {
    CreateItem(Cell(row, fm, NameField), Cell(row, fm, DescriptionField),
               Cell(row, fm, DownloadUrlField), Cell(row, fm, UserIdField),
               SplitField(Cell(row, fm, TagsField)), SplitField(Cell(row, fm, CategoriesField)),
               Cell(row, fm, StartDateField), Cell(row, fm, EndDateField),
               Cell(row, fm, MediaTypeField))
  }

  /** Each cell `process` reads is the row's entry at the column the header
      gives its name. */
  lemma CellByName(row: Row, fm: FieldMap)
    requires RowFits(row, fm)
    ensures && "mediaType" in fm && fm["mediaType"] < |row|
            && Cell(row, fm, MediaTypeField) == row[fm["mediaType"]]
    ensures && "name" in fm && fm["name"] < |row|
            && Cell(row, fm, NameField) == row[fm["name"]]
    ensures && "description" in fm && fm["description"] < |row|
            && Cell(row, fm, DescriptionField) == row[fm["description"]]
    ensures && "downloadUrl" in fm && fm["downloadUrl"] < |row|
            && Cell(row, fm, DownloadUrlField) == row[fm["downloadUrl"]]
    ensures && "userId" in fm && fm["userId"] < |row|
            && Cell(row, fm, UserIdField) == row[fm["userId"]]
    ensures && "tags" in fm && fm["tags"] < |row|
            && Cell(row, fm, TagsField) == row[fm["tags"]]
    ensures && "categories" in fm && fm["categories"] < |row|
            && Cell(row, fm, CategoriesField) == row[fm["categories"]]
    ensures && "startDate" in fm && fm["startDate"] < |row|
            && Cell(row, fm, StartDateField) == row[fm["startDate"]]
    ensures && "endDate" in fm && fm["endDate"] < |row|
            && Cell(row, fm, EndDateField) == row[fm["endDate"]]
  {
    PositionNames();
  }

  /** The item built from a good row reads back as the row's cells (which
      `CellByName` locates by column name), the tags and categories cells
      split at commas and stripped. */
  lemma ReadRowItem(row: Row, fm: FieldMap)
    requires RowFits(row, fm)
    ensures ReadItem(RowItem(row, fm))
         == Some(MediaItem(Cell(row, fm, MediaTypeField), Cell(row, fm, NameField),
                           Cell(row, fm, DownloadUrlField), Cell(row, fm, UserIdField),
                           SplitField(Cell(row, fm, TagsField)),
                           SplitField(Cell(row, fm, CategoriesField)),
                           Cell(row, fm, StartDateField), Cell(row, fm, EndDateField)))
  {
    ReadCreateItem(Cell(row, fm, NameField), Cell(row, fm, DescriptionField),
                   Cell(row, fm, DownloadUrlField), Cell(row, fm, UserIdField),
                   SplitField(Cell(row, fm, TagsField)),
                   SplitField(Cell(row, fm, CategoriesField)),
                   Cell(row, fm, StartDateField), Cell(row, fm, EndDateField),
                   Cell(row, fm, MediaTypeField));
  }

  /** The line `bad_row` appends to the reject log. */
  function RejectLine(row: Row): Str
  {
    Join(row, ';') + ['\n']
  }

  /** The items of the good rows of `rows`, in row order. */
  function ItemsOf(rows: seq<Row>, fm: FieldMap): seq<Element>
    requires GoodRowsFit(rows, fm)
  {
    if rows == [] then []
    else
      var last := rows[|rows| - 1];
      ItemsOf(rows[..|rows| - 1], fm) + (if IsBad(last) then [] else [RowItem(last, fm)])
  }

  /** The reject log lines of the bad rows of `rows`, in row order. */
  function Rejects(rows: seq<Row>): seq<Str>
  {
    if rows == [] then []
    else
      var last := rows[|rows| - 1];
      Rejects(rows[..|rows| - 1]) + (if IsBad(last) then [RejectLine(last)] else [])
  }

  /** The rows of `rows` whose `is_bad` verdict is `bad`, in row order. */
  function Sift(rows: seq<Row>, bad: bool): (r: seq<Row>)
    ensures |r| <= |rows|
    ensures forall k :: 0 <= k < |r| ==> IsBad(r[k]) == bad
  {
    if rows == [] then []
    else
      var last := rows[|rows| - 1];
      Sift(rows[..|rows| - 1], bad) + (if IsBad(last) == bad then [last] else [])
  }

  /** The item of each row of `good`, in order. */
  function RowItems(good: seq<Row>, fm: FieldMap): (r: seq<Element>)
    requires forall k :: 0 <= k < |good| ==> RowFits(good[k], fm)
    ensures |r| == |good|
  {
    seq(|good|, k requires 0 <= k < |good| && RowFits(good[k], fm) => RowItem(good[k], fm))
  }

  /** The reject line of each row of `bad`, in order. */
  function RejectLines(bad: seq<Row>): (r: seq<Str>)
    ensures |r| == |bad|
  {
    seq(|bad|, k requires 0 <= k < |bad| => RejectLine(bad[k]))
  }

  /** The batch size the flush test `len(items) >= split_size` amounts to:
      a size below one flushes after every item. */
  function BatchSize(splitSize: int): (n: nat)
    ensures n >= 1 && (splitSize >= 1 ==> n == splitSize) && (splitSize < 1 ==> n == 1)
  {
    if splitSize < 1 then 1 else splitSize
  }

  /** `xs` cut, from the front, into batches of `n`; the last batch holds
      what is left over. */
  function Chunks<T>(xs: seq<T>, n: nat): seq<seq<T>>
    requires n >= 1
    decreases |xs|
  {
    if xs == [] then []
    else if |xs| <= n then [xs]
    else [xs[..n]] + Chunks(xs[n..], n)
  }

  function Flatten<T>(xss: seq<seq<T>>): seq<T>
  {
    if xss == [] then [] else xss[0] + Flatten(xss[1..])
  }

  /** `"{0}_{1:03d}.xml".format(path, nbr)`. */
  function FileName(path: Str, nbr: nat): Str
  {
    path + "_" + Format03d(nbr) + ".xml"
  }

  /** A file `write_bulk_file` writes: its number, its name and the
      document it holds. */
  datatype BulkFile = BulkFile(nbr: nat, name: Str, document: Element)

  /** The `mrss` root with one `channel` holding the batch. */
  function BulkDocument(items: seq<Element>): Element
  {
    Element(Mrss,
            map["xmlns:xsd" := "http://www.w3.org/2001/XMLSchema",
                "xmlns:xsi" := "http://www.w3.org/2001/XMLSchema-instance",
                "xsi:noNamespaceSchemaLocation" := "ingestion.xsd"],
            [], [Element(Channel, map[], [], items)])
  }

  /** `write_bulk_file(items, name=path, nbr=nbr)`. */
  function WriteBulkFile(items: seq<Element>, path: Str, nbr: nat): BulkFile
  {
    BulkFile(nbr, FileName(path, nbr), BulkDocument(items))
  }

  /** The files written for `batches`, numbered from 1 in order. */
  function BulkFiles(path: Str, batches: seq<seq<Element>>): seq<BulkFile>
  {
    seq(|batches|, k requires 0 <= k < |batches| => WriteBulkFile(batches[k], path, k + 1))
  }

  /** The two ways a run ends: every row handled, or the header lacks one of
      the nine names (`headers.index` raises before any row is read). */
  datatype Outcome = Completed | HeaderMissing(name: Str)

  /** `process(f, base_name, split_size)`, with the CSV already read into
      `header` and `rows`. Bad rows are logged, good rows become items in
      order, and those items are written in numbered batches of
      `BatchSize(splitSize)`, the last batch taking the remainder. */
  method Process(header: Row, rows: seq<Row>, baseName: Str, splitSize: int)
    returns (outcome: Outcome, files: seq<BulkFile>, rejects: seq<Str>)
    requires ParseFields(header).Fields? ==> GoodRowsFit(rows, ParseFields(header).fields)
    ensures ParseFields(header).MissingField? ==>
      outcome == HeaderMissing(ParseFields(header).name) && files == [] && rejects == []
    ensures ParseFields(header).Fields? ==>
      && outcome == Completed
      && files == BulkFiles(baseName,
                            Chunks(ItemsOf(rows, ParseFields(header).fields), BatchSize(splitSize)))
      && rejects == Rejects(rows)
  {
    var parsed := ParseFields(header);
    if parsed.MissingField? {
      return HeaderMissing(parsed.name), [], [];
    }
    outcome := Completed;
    files, rejects := ProcessRows(rows, parsed.fields, baseName, splitSize);
  }

  /** The `for row in lines` loop of `process` and the final flush, once the
      header has given the column mapping `fm`. */
  method ProcessRows(rows: seq<Row>, fm: FieldMap, baseName: Str, splitSize: int)
    returns (files: seq<BulkFile>, rejects: seq<Str>)
    requires GoodRowsFit(rows, fm)
    ensures files == BulkFiles(baseName, Chunks(ItemsOf(rows, fm), BatchSize(splitSize)))
    ensures rejects == Rejects(rows)
  {
    ghost var n := BatchSize(splitSize);
    ghost var flushed: seq<seq<Element>> := [];
    var items: seq<Element> := [];
    var fileNbr := 1;
    files, rejects := [], [];
    for i := 0 to |rows|
      invariant Handled(rows, i, fm, baseName, n, flushed, items, fileNbr, files, rejects)
    {
      var row := rows[i];
      if IsBad(row) {
        BadRowStep(rows, i, fm, baseName, n, flushed, items, fileNbr, files, rejects);
        rejects := rejects + [RejectLine(row)];
      } else {
        GoodRowStep(rows, i, fm, baseName, n, flushed, items, fileNbr, files, rejects);
        items := items + [RowItem(row, fm)];
        if |items| >= splitSize {
          FlushStep(rows, i + 1, fm, baseName, n, flushed, items, fileNbr, files, rejects);
          files := files + [WriteBulkFile(items, baseName, fileNbr)];
          flushed := flushed + [items];
          fileNbr := fileNbr + 1;
          items := [];
        }
      }
    }
    LastFlush(rows, fm, baseName, n, flushed, items, fileNbr, files, rejects);
    if items != [] {
      files := files + [WriteBulkFile(items, baseName, fileNbr)];
    }
  }

  /** The state of `ProcessRows` once the first `i` rows are handled:
      `flushed` are the batches written so far, each of `n` items, and
      `items` is the batch being filled. */
  ghost predicate Handled(rows: seq<Row>, i: nat, fm: FieldMap, baseName: Str, n: nat,
                          flushed: seq<seq<Element>>, items: seq<Element>, fileNbr: nat,
                          files: seq<BulkFile>, rejects: seq<Str>)
  {
    && i <= |rows| && GoodRowsFit(rows, fm) && GoodRowsFit(rows[..i], fm)
    && Flatten(flushed) + items == ItemsOf(rows[..i], fm)
    && AllOfSize(flushed, n)
    && |items| < n
    && fileNbr == |flushed| + 1
    && files == BulkFiles(baseName, flushed)
    && rejects == Rejects(rows[..i])
  }

  lemma BadRowStep(rows: seq<Row>, i: nat, fm: FieldMap, baseName: Str, n: nat,
                   flushed: seq<seq<Element>>, items: seq<Element>, fileNbr: nat,
                   files: seq<BulkFile>, rejects: seq<Str>)
    requires Handled(rows, i, fm, baseName, n, flushed, items, fileNbr, files, rejects)
    requires i < |rows| && IsBad(rows[i])
    ensures Handled(rows, i + 1, fm, baseName, n, flushed, items, fileNbr, files,
                    rejects + [RejectLine(rows[i])])
  {
    Step(rows, i, fm);
  }

  lemma GoodRowStep(rows: seq<Row>, i: nat, fm: FieldMap, baseName: Str, n: nat,
                    flushed: seq<seq<Element>>, items: seq<Element>, fileNbr: nat,
                    files: seq<BulkFile>, rejects: seq<Str>)
    requires Handled(rows, i, fm, baseName, n, flushed, items, fileNbr, files, rejects)
    requires i < |rows| && !IsBad(rows[i])
    ensures RowFits(rows[i], fm)
    ensures var items' := items + [RowItem(rows[i], fm)];
      && GoodRowsFit(rows[..i + 1], fm)
      && |items'| <= n
      && Flatten(flushed) + items' == ItemsOf(rows[..i + 1], fm)
      && rejects == Rejects(rows[..i + 1])
      && (|items'| < n ==>
            Handled(rows, i + 1, fm, baseName, n, flushed, items', fileNbr, files, rejects))
  {
    Step(rows, i, fm);
    AppendAssoc(Flatten(flushed), items, [RowItem(rows[i], fm)]);
  }

  lemma FlushStep(rows: seq<Row>, i: nat, fm: FieldMap, baseName: Str, n: nat,
                  flushed: seq<seq<Element>>, items: seq<Element>, fileNbr: nat,
                  files: seq<BulkFile>, rejects: seq<Str>)
    requires i <= |rows| && GoodRowsFit(rows, fm) && GoodRowsFit(rows[..i], fm)
    requires Flatten(flushed) + items == ItemsOf(rows[..i], fm)
    requires AllOfSize(flushed, n) && |items| == n
    requires fileNbr == |flushed| + 1 && files == BulkFiles(baseName, flushed)
    requires rejects == Rejects(rows[..i])
    requires n >= 1
    ensures Handled(rows, i, fm, baseName, n, flushed + [items], [], fileNbr + 1,
                    files + [WriteBulkFile(items, baseName, fileNbr)], rejects)
  {
    AllOfSizeSnoc(flushed, items, n);
    FlattenSnoc(flushed, items);
    BulkFilesSnoc(baseName, flushed, items);
    AppendEmpty(Flatten(flushed + [items]));
  }

  lemma LastFlush(rows: seq<Row>, fm: FieldMap, baseName: Str, n: nat,
                  flushed: seq<seq<Element>>, items: seq<Element>, fileNbr: nat,
                  files: seq<BulkFile>, rejects: seq<Str>)
    requires n >= 1
    requires Handled(rows, |rows|, fm, baseName, n, flushed, items, fileNbr, files, rejects)
    ensures rejects == Rejects(rows)
    ensures var last := if items == [] then [] else [WriteBulkFile(items, baseName, fileNbr)];
      files + last == BulkFiles(baseName, Chunks(ItemsOf(rows, fm), n))
  {
    assert rows[..|rows|] == rows;
    ChunksOfFull(flushed, items, n);
    if items != [] {
      BulkFilesSnoc(baseName, flushed, items);
    } else {
      assert flushed + [] == flushed;
    }
  }

  /** What handling row `i` adds to the items and to the reject log. */
  lemma Step(rows: seq<Row>, i: nat, fm: FieldMap)
    requires i < |rows| && GoodRowsFit(rows, fm)
    ensures GoodRowsFit(rows[..i], fm) && GoodRowsFit(rows[..i + 1], fm)
    ensures IsBad(rows[i]) ==> ItemsOf(rows[..i + 1], fm) == ItemsOf(rows[..i], fm)
    ensures !IsBad(rows[i]) ==> ItemsOf(rows[..i + 1], fm) == ItemsOf(rows[..i], fm) + [RowItem(rows[i], fm)]
    ensures Rejects(rows[..i + 1]) ==
      Rejects(rows[..i]) + (if IsBad(rows[i]) then [RejectLine(rows[i])] else [])
  {
    assert rows[..i + 1][..i] == rows[..i];
  }

  lemma BulkFilesSnoc(path: Str, batches: seq<seq<Element>>, items: seq<Element>)
    ensures BulkFiles(path, batches + [items]) ==
      BulkFiles(path, batches) + [WriteBulkFile(items, path, |batches| + 1)]
  {
  }

  lemma AppendEmpty<T>(a: seq<T>)
    ensures a + [] == a
  {
  }

  /** Every batch of `batches` holds exactly `n` items. */
  predicate AllOfSize<T>(batches: seq<seq<T>>, n: nat)
  {
    forall k :: 0 <= k < |batches| ==> |batches[k]| == n
  }

  lemma AllOfSizeSnoc<T>(batches: seq<seq<T>>, batch: seq<T>, n: nat)
    requires AllOfSize(batches, n) && |batch| == n
    ensures AllOfSize(batches + [batch], n)
  {
    forall k | 0 <= k < |batches + [batch]| ensures |(batches + [batch])[k]| == n {
      if k < |batches| { assert (batches + [batch])[k] == batches[k]; }
    }
  }

  lemma FlattenSnoc<T>(xss: seq<seq<T>>, xs: seq<T>)
    ensures Flatten(xss + [xs]) == Flatten(xss) + xs
  {
    if xss != [] {
      assert (xss + [xs])[1..] == xss[1..] + [xs];
      FlattenSnoc(xss[1..], xs);
    }
  }

  /** Full batches followed by a short remainder are exactly how `Chunks`
      cuts their concatenation. */
  lemma {:induction false} ChunksOfFull<T>(full: seq<seq<T>>, rest: seq<T>, n: nat)
    requires n >= 1 && |rest| < n
    requires AllOfSize(full, n)
    ensures Chunks(Flatten(full) + rest, n) == full + (if rest == [] then [] else [rest])
  {
    if full == [] {
      assert Flatten(full) + rest == rest;
    } else {
      var xs := Flatten(full) + rest;
      ChunksOfFull(full[1..], rest, n);
      assert xs == full[0] + (Flatten(full[1..]) + rest);
      if Flatten(full[1..]) + rest == [] {
        assert xs == full[0];
      } else {
        assert xs[..n] == full[0];
        assert xs[n..] == Flatten(full[1..]) + rest;
      }
    }
  }

  /** Concatenating the batches in order gives back every item. */
  lemma {:induction false} ChunksFlatten<T>(xs: seq<T>, n: nat)
    requires n >= 1
    ensures Flatten(Chunks(xs, n)) == xs
    decreases |xs|
  {
    if xs != [] {
      if |xs| <= n {
        assert Flatten([xs]) == xs + Flatten([xs][1..]);
        AppendEmpty(xs);
      } else {
        ChunksFlatten(xs[n..], n);
        assert ([xs[..n]] + Chunks(xs[n..], n))[1..] == Chunks(xs[n..], n);
        assert xs[..n] + xs[n..] == xs;
      }
    }
  }

  /** No batch is empty, none holds more than `n` items, and every batch
      but the last holds exactly `n`. */
  lemma {:induction false} ChunksShape<T>(xs: seq<T>, n: nat)
    requires n >= 1
    ensures forall k :: 0 <= k < |Chunks(xs, n)| ==> 1 <= |Chunks(xs, n)[k]| <= n
    ensures forall k :: 0 <= k < |Chunks(xs, n)| - 1 ==> |Chunks(xs, n)[k]| == n
    decreases |xs|
  {
    if |xs| > n {
      ChunksShape(xs[n..], n);
      var c := Chunks(xs, n);
      assert forall k :: 1 <= k < |c| ==> c[k] == Chunks(xs[n..], n)[k - 1];
    }
  }

  /** There are `ceil(|xs| / n)` batches: enough to hold every item, and
      one fewer would not be. */
  lemma {:induction false} ChunksCount<T>(xs: seq<T>, n: nat)
    requires n >= 1
    ensures var c := |Chunks(xs, n)|;
      (xs == [] <==> c == 0) && (c - 1) * n < |xs| <= c * n
    decreases |xs|
  {
    if |xs| > n {
      ChunksCount(xs[n..], n);
      var c := |Chunks(xs[n..], n)|;
      assert |Chunks(xs, n)| == c + 1;
      assert (c + 1) * n == c * n + n && c * n == (c - 1) * n + n;
    }
  }

  /** `Sift` keeps each row on exactly one side. */
  lemma {:induction false} SiftPartition(rows: seq<Row>)
    ensures |Sift(rows, false)| + |Sift(rows, true)| == |rows|
  {
    if rows != [] {
      SiftPartition(rows[..|rows| - 1]);
    }
  }

  /** `Sift` keeps the row order across any split of the input. */
  lemma {:induction false} SiftAppend(a: seq<Row>, b: seq<Row>, bad: bool)
    ensures Sift(a + b, bad) == Sift(a, bad) + Sift(b, bad)
    decreases |b|
  {
    if b == [] {
      assert a + b == a;
    } else {
      assert (a + b)[..|a + b| - 1] == a + b[..|b| - 1];
      SiftAppend(a, b[..|b| - 1], bad);
    }
  }

  /** Rows that all get the same verdict all land on that side. */
  lemma {:induction false} SiftUniform(rows: seq<Row>, bad: bool)
    requires forall k :: 0 <= k < |rows| ==> IsBad(rows[k]) == bad
    ensures Sift(rows, bad) == rows && Sift(rows, !bad) == []
  {
    if rows != [] {
      SiftUniform(rows[..|rows| - 1], bad);
    }
  }

  /** Every kept row comes from the input; so good rows that fit stay
      fitting once sifted. */
  lemma {:induction false} SiftFits(rows: seq<Row>, fm: FieldMap)
    requires GoodRowsFit(rows, fm)
    ensures forall k :: 0 <= k < |Sift(rows, false)| ==> RowFits(Sift(rows, false)[k], fm)
  {
    if rows != [] {
      var init := rows[..|rows| - 1];
      assert GoodRowsFit(init, fm) by {
        forall k | 0 <= k < |init| ensures init[k] == rows[k] { }
      }
      SiftFits(init, fm);
    }
  }

  lemma RowItemsSnoc(good: seq<Row>, row: Row, fm: FieldMap)
    requires forall k :: 0 <= k < |good| ==> RowFits(good[k], fm)
    requires RowFits(row, fm)
    ensures RowItems(good + [row], fm) == RowItems(good, fm) + [RowItem(row, fm)]
  {
    var l := RowItems(good + [row], fm);
    var r := RowItems(good, fm) + [RowItem(row, fm)];
    forall k | 0 <= k < |l| ensures l[k] == r[k] {
      if k < |good| { assert (good + [row])[k] == good[k]; }
    }
  }

  lemma RejectLinesSnoc(bad: seq<Row>, row: Row)
    ensures RejectLines(bad + [row]) == RejectLines(bad) + [RejectLine(row)]
  {
    var l := RejectLines(bad + [row]);
    var r := RejectLines(bad) + [RejectLine(row)];
    forall k | 0 <= k < |l| ensures l[k] == r[k] {
      if k < |bad| { assert (bad + [row])[k] == bad[k]; }
    }
  }

  /** The items `ProcessRows` builds are those of the rows `is_bad` lets
      through, in order. */
  lemma {:induction false} ItemsOfSift(rows: seq<Row>, fm: FieldMap)
    requires GoodRowsFit(rows, fm)
    ensures forall k :: 0 <= k < |Sift(rows, false)| ==> RowFits(Sift(rows, false)[k], fm)
    ensures ItemsOf(rows, fm) == RowItems(Sift(rows, false), fm)
  {
    SiftFits(rows, fm);
    if rows != [] {
      var init := rows[..|rows| - 1];
      var last := rows[|rows| - 1];
      Step(rows, |rows| - 1, fm);
      ItemsOfSift(init, fm);
      if !IsBad(last) {
        RowItemsSnoc(Sift(init, false), last, fm);
      }
    }
  }

  /** The reject log holds the lines of the rows `is_bad` stops, in order. */
  lemma {:induction false} RejectsSift(rows: seq<Row>)
    ensures Rejects(rows) == RejectLines(Sift(rows, true))
  {
    if rows != [] {
      var init := rows[..|rows| - 1];
      var last := rows[|rows| - 1];
      RejectsSift(init);
      if IsBad(last) {
        RejectLinesSnoc(Sift(init, true), last);
      }
    }
  }

  /** Every row goes to exactly one place: there are as many items and
      reject lines together as there are rows. */
  lemma {:induction false} RowsPartition(rows: seq<Row>, fm: FieldMap)
    requires GoodRowsFit(rows, fm)
    ensures |ItemsOf(rows, fm)| + |Rejects(rows)| == |rows|
  {
    ItemsOfSift(rows, fm);
    RejectsSift(rows);
    SiftPartition(rows);
  }

  /** A run of rows that all decode yields one item per row, in order, and
      no reject line. */
  lemma {:induction false} ItemsOfGoodRows(rows: seq<Row>, fm: FieldMap)
    requires forall k :: 0 <= k < |rows| ==> !IsBad(rows[k]) && RowFits(rows[k], fm)
    ensures ItemsOf(rows, fm) == RowItems(rows, fm) && Rejects(rows) == []
  {
    ItemsOfSift(rows, fm);
    RejectsSift(rows);
    SiftUniform(rows, false);
  }

  /** A run of rows that all fail to decode yields no item and one reject
      line per row, in order. */
  lemma {:induction false} RejectsOfBadRows(rows: seq<Row>, fm: FieldMap)
    requires forall k :: 0 <= k < |rows| ==> IsBad(rows[k])
    ensures ItemsOf(rows, fm) == [] && Rejects(rows) == RejectLines(rows)
  {
    ItemsOfSift(rows, fm);
    RejectsSift(rows);
    SiftUniform(rows, true);
  }

  /** A reject line ends with a newline, and when no cell holds ';' the row
      can be read back from it. */
  lemma RejectLineSplit(row: Row)
    requires |row| >= 1 && forall k :: 0 <= k < |row| ==> ';' !in row[k]
    ensures var line := RejectLine(row);
      |line| >= 1 && line[|line| - 1] == '\n' && SplitOn(line[..|line| - 1], ';') == row
  {
    var line := RejectLine(row);
    assert line[..|line| - 1] == Join(row, ';');
    SplitOnJoin(row, ';');
  }

  /** Different numbers give different file names. */
  lemma FileNameInjective(path: Str, m: nat, n: nat)
    requires FileName(path, m) == FileName(path, n)
    ensures m == n
  {
    var a := FileName(path, m);
    var b := FileName(path, n);
    assert |Format03d(m)| == |Format03d(n)|;
    assert Format03d(m) == a[|path| + 1..|a| - 4];
    assert Format03d(n) == b[|path| + 1..|b| - 4];
  }

  /** Below 1000 the number takes exactly three zero-padded digits. */
  lemma FileNameThreeDigits(path: Str, nbr: nat)
    requires nbr < 1000
    ensures var name := FileName(path, nbr);
      && |name| == |path| + 8
      && name[..|path| + 1] == path + "_"
      && name[|path| + 4..] == ".xml"
      && AllDigits(name[|path| + 1..|path| + 4])
      && DecimalValue(name[|path| + 1..|path| + 4]) == nbr
  {
    var name := FileName(path, nbr);
    assert name[|path| + 1..|path| + 4] == Format03d(nbr);
  }

  /** The files of a run are numbered 1, 2, 3, ... in order, with no gap,
      each named after its number and holding its batch. */
  lemma BulkFilesNumbered(path: Str, batches: seq<seq<Element>>)
    ensures var files := BulkFiles(path, batches);
      && |files| == |batches|
      && forall k :: 0 <= k < |files| ==>
           files[k].nbr == k + 1 && files[k].name == FileName(path, k + 1)
           && files[k].document == BulkDocument(batches[k])
  {
  }

  /** No two files of a run share a name. */
  lemma BulkFileNamesDistinct(path: Str, batches: seq<seq<Element>>)
    ensures var files := BulkFiles(path, batches);
      forall j, k :: 0 <= j < k < |files| ==> files[j].name != files[k].name
  {
    var files := BulkFiles(path, batches);
    forall j, k | 0 <= j < k < |files| ensures files[j].name != files[k].name {
      assert files[j].name == FileName(path, j + 1);
      assert files[k].name == FileName(path, k + 1);
      if FileName(path, j + 1) == FileName(path, k + 1) {
        FileNameInjective(path, j + 1, k + 1);
      }
    }
  }
}
