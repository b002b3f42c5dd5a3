/**
 The binary row format: the server's encoder and the client's hand-written decoder, which advances an
 offset through nested loops and gives up at the first read that would pass the end.
 */
module BinaryRows {
  import opened Wrappers
  import opened Wire

  type Row = seq<Bytes>

  /** The client prints a table, or one of three complaints. */
  datatype Decoded =
    | InvalidData
    | UnexpectedEnd
    | OutOfBounds
    | Table(rows: seq<Row>, numCols: nat, end: nat)

  datatype ReadError = NoLength | NoData

  // ---- encoder --------------------------------------------------------------------------------

  function EncodedCell(cell: Bytes): Bytes {
    BigEndian(Cast32(|cell|)) + cell
  }

  function EncodedRow(row: Row): Bytes {
    if row == [] then [] else EncodedRow(row[..|row| - 1]) + EncodedCell(row[|row| - 1])
  }

  function EncodedRows(rows: seq<Row>): Bytes {
    if rows == [] then [] else EncodedRows(rows[..|rows| - 1]) + EncodedRow(rows[|rows| - 1])
  }

  function EncodedTable(rows: seq<Row>, numCols: nat): Bytes {
    BigEndian(Cast32(|rows|)) + BigEndian(Cast32(numCols)) + EncodedRows(rows)
  }

  method EncodeTable(rows: seq<Row>, numCols: nat) returns (data: Bytes)
    ensures data == EncodedTable(rows, numCols)
  {
    data := PushNumber([], Cast32(|rows|));
    data := PushNumber(data, Cast32(numCols));
    ghost var head := data;
    for i := 0 to |rows|
      invariant data == head + EncodedRows(rows[..i])
    {
      var row := rows[i];
      ghost var before := data;
      for j := 0 to |row|
        invariant data == before + EncodedRow(row[..j])
      {
        RowSnoc(before, row, j);
        data := PushNumber(data, Cast32(|row[j]|));
        data := data + row[j];
      }
      assert row[..|row|] == row;
      RowsSnoc(head, rows, i);
    }
    assert rows[..|rows|] == rows;
  }

  lemma RowSnoc(before: Bytes, row: Row, j: nat)
    requires j < |row|
    ensures before + EncodedRow(row[..j + 1]) ==
            before + EncodedRow(row[..j]) + BigEndian(Cast32(|row[j]|)) + row[j]
  {
    assert row[..j + 1][..j] == row[..j];
    Regroup(before, EncodedRow(row[..j]), BigEndian(Cast32(|row[j]|)), row[j]);
  }

  lemma RowsSnoc(head: Bytes, rows: seq<Row>, i: nat)
    requires i < |rows|
    ensures head + EncodedRows(rows[..i + 1]) == head + EncodedRows(rows[..i]) + EncodedRow(rows[i])
  {
    assert rows[..i + 1][..i] == rows[..i];
  }

  lemma Regroup(a: Bytes, b: Bytes, c: Bytes, d: Bytes)
    ensures a + (b + c) + d == a + b + (c + d) == a + b + c + d == a + (b + (c + d))
  {
  }

  // ---- decoder --------------------------------------------------------------------------------

  function ReadCell(data: Bytes, offset: nat): Result<(Bytes, nat), ReadError> {
    if offset + 4 > |data| then Err(NoLength)
    else
      var len := FromBigEndian(data[offset..offset + 4]);
      if offset + 4 + len > |data| then Err(NoData)
      else Ok((data[offset + 4..offset + 4 + len], offset + 4 + len))
  }

  function ReadRow(data: Bytes, offset: nat, n: nat): Result<(Row, nat), ReadError> {
    if n == 0 then Ok(([], offset))
    else
      match ReadRow(data, offset, n - 1)
      case Err(e) => Err(e)
      case Ok((row, next)) =>
        match ReadCell(data, next)
        case Err(e) => Err(e)
        case Ok((cell, end)) => Ok((row + [cell], end))
  }

  function ReadRows(data: Bytes, offset: nat, numCols: nat, n: nat): Result<(seq<Row>, nat), ReadError> {
    if n == 0 then Ok(([], offset))
    else
      match ReadRows(data, offset, numCols, n - 1)
      case Err(e) => Err(e)
      case Ok((rows, next)) =>
        match ReadRow(data, next, numCols)
        case Err(e) => Err(e)
        case Ok((row, end)) => Ok((rows + [row], end))
  }

  function Decode(data: Bytes): Decoded {
    if |data| < 8 then InvalidData
    else
      var numRows, numCols := FromBigEndian(data[0..4]), FromBigEndian(data[4..8]);
      match ReadRows(data, 8, numCols, numRows)
      case Err(NoLength) => UnexpectedEnd
      case Err(NoData) => OutOfBounds
      case Ok((rows, end)) => Table(rows, numCols, end)
  }

  method DecodeRow(data: Bytes, start: nat, numCols: nat) returns (r: Result<(Row, nat), ReadError>)
    requires start <= |data|
    ensures r == ReadRow(data, start, numCols)
    ensures r.Ok? ==> r.value.1 <= |data|
  {
    var offset, row := start, [];
    for col := 0 to numCols
      invariant offset <= |data| && ReadRow(data, start, col) == Ok((row, offset))
    {
      if offset + 4 > |data| {
        FailingRow(data, start, numCols, col + 1, NoLength);
        return Err(NoLength);
      }
      var len := ReadNumber(data, offset);
      offset := offset + 4;
      if offset + len > |data| {
        FailingRow(data, start, numCols, col + 1, NoData);
        return Err(NoData);
      }
      row := row + [data[offset..offset + len]];
      offset := offset + len;
    }
    return Ok((row, offset));
  }

  lemma FailingRow(data: Bytes, offset: nat, numCols: nat, n: nat, e: ReadError)
    requires n <= numCols && ReadRow(data, offset, n) == Err(e)
    ensures ReadRow(data, offset, numCols) == Err(e)
  {
  }

  lemma FailingRows(data: Bytes, offset: nat, numCols: nat, numRows: nat, n: nat, e: ReadError)
    requires n <= numRows && ReadRows(data, offset, numCols, n) == Err(e)
    ensures ReadRows(data, offset, numCols, numRows) == Err(e)
  {
  }

  method DecodeTable(data: Bytes) returns (r: Decoded)
    ensures r == Decode(data)
  {
    if |data| < 8 {
      return InvalidData;
    }
    var offset := 0;
    var numRows := ReadNumber(data, offset);
    offset := offset + 4;
    var numCols := ReadNumber(data, offset);
    offset := offset + 4;
    var rows := [];
    for i := 0 to numRows
      invariant offset <= |data| && ReadRows(data, 8, numCols, i) == Ok((rows, offset))
    {
      var row := DecodeRow(data, offset, numCols);
      if row.Err? {
        FailingRows(data, 8, numCols, numRows, i + 1, row.error);
        return if row.error == NoLength then UnexpectedEnd else OutOfBounds;
      }
      rows, offset := rows + [row.value.0], row.value.1;
    }
    return Table(rows, numCols, offset);
  }

  // ---- main results ---------------------------------------------------------------------------

  /** What the format can carry: counts and lengths that fit 32 bits, rows of one width. */
  predicate Encodable(rows: seq<Row>, numCols: nat) {
    && |rows| < LIMIT && numCols < LIMIT
    && EncodableRows(rows, numCols)
  }

  predicate EncodableRows(rows: seq<Row>, numCols: nat) {
    rows != [] ==>
      var last := rows[|rows| - 1];
      EncodableRow(last) && |last| == numCols && EncodableRows(rows[..|rows| - 1], numCols)
  }

  predicate EncodableRow(row: Row) {
    row != [] ==> |row[|row| - 1]| < LIMIT && EncodableRow(row[..|row| - 1])
  }

  predicate At(data: Bytes, offset: nat, piece: Bytes) {
    offset + |piece| <= |data| && data[offset..offset + |piece|] == piece
  }

  lemma AtParts(data: Bytes, offset: nat, a: Bytes, b: Bytes)
    ensures At(data, offset, a + b) <==> At(data, offset, a) && At(data, offset + |a|, b)
  {
    var n, m := |a|, |b|;
    if offset + n + m <= |data| {
      assert data[offset..offset + n + m] == data[offset..offset + n] + data[offset + n..offset + n + m];
      assert (a + b)[..n] == a && (a + b)[n..] == b;
    }
  }

  lemma ReadsCell(data: Bytes, offset: nat, cell: Bytes)
    requires |cell| < LIMIT && At(data, offset, EncodedCell(cell))
    ensures ReadCell(data, offset) == Ok((cell, offset + |EncodedCell(cell)|))
  {
    AtParts(data, offset, BigEndian(|cell|), cell);
    NumberRoundTrip(|cell|);
  }

  /** In other words: every row has `numCols` cells, and the length of every cell fits. */
  lemma {:induction false} EncodableRowsMeans(rows: seq<Row>, numCols: nat)
    ensures EncodableRows(rows, numCols) <==>
            forall i :: 0 <= i < |rows| ==> |rows[i]| == numCols && EncodableRow(rows[i])
  {
    if rows != [] {
      var init := rows[..|rows| - 1];
      EncodableRowsMeans(init, numCols);
      assert forall i :: 0 <= i < |init| ==> rows[i] == init[i];
    }
  }

  lemma {:induction false} EncodableRowMeans(row: Row)
    ensures EncodableRow(row) <==> forall j :: 0 <= j < |row| ==> |row[j]| < LIMIT
  {
    if row != [] {
      var init := row[..|row| - 1];
      EncodableRowMeans(init);
      assert forall j :: 0 <= j < |init| ==> row[j] == init[j];
    }
  }

  lemma RowOf(init: Row, cell: Bytes)
    ensures EncodedRow(init + [cell]) == EncodedRow(init) + EncodedCell(cell)
  {
    assert (init + [cell])[..|init|] == init;
  }

  lemma RowsOf(init: seq<Row>, row: Row)
    ensures EncodedRows(init + [row]) == EncodedRows(init) + EncodedRow(row)
  {
    assert (init + [row])[..|init|] == init;
  }

  lemma NextCell(data: Bytes, offset: nat, row: Row, next: nat, end: nat)
    requires row != [] && ReadRow(data, offset, |row| - 1) == Ok((row[..|row| - 1], next))
    requires ReadCell(data, next) == Ok((row[|row| - 1], end))
    ensures ReadRow(data, offset, |row|) == Ok((row, end))
  {
    assert row == row[..|row| - 1] + [row[|row| - 1]];
  }

  lemma NextRow(data: Bytes, offset: nat, numCols: nat, rows: seq<Row>, next: nat, end: nat)
    requires rows != [] && ReadRows(data, offset, numCols, |rows| - 1) == Ok((rows[..|rows| - 1], next))
    requires ReadRow(data, next, numCols) == Ok((rows[|rows| - 1], end))
    ensures ReadRows(data, offset, numCols, |rows|) == Ok((rows, end))
  {
    assert rows == rows[..|rows| - 1] + [rows[|rows| - 1]];
  }

  /** An encoded row is an encoded shorter row and its last cell. */
  lemma AtRow(data: Bytes, offset: nat, row: Row)
    requires row != [] && At(data, offset, EncodedRow(row))
    ensures var init, cell := row[..|row| - 1], row[|row| - 1];
            var next := offset + |EncodedRow(init)|;
            && At(data, offset, EncodedRow(init)) && At(data, next, EncodedCell(cell))
            && offset + |EncodedRow(row)| == next + |EncodedCell(cell)|
  {
    AtParts(data, offset, EncodedRow(row[..|row| - 1]), EncodedCell(row[|row| - 1]));
  }

  lemma {:induction false} ReadsRow(data: Bytes, offset: nat, row: Row)
    requires EncodableRow(row) && At(data, offset, EncodedRow(row))
    ensures ReadRow(data, offset, |row|) == Ok((row, offset + |EncodedRow(row)|))
    decreases |row|
  {
    if row != [] {
      var init, cell := row[..|row| - 1], row[|row| - 1];
      var next := offset + |EncodedRow(init)|;
      AtRow(data, offset, row);
      ReadsRow(data, offset, init);
      ReadsCell(data, next, cell);
      NextCell(data, offset, row, next, next + |EncodedCell(cell)|);
    }
  }

  lemma AtRows(data: Bytes, offset: nat, init: seq<Row>, row: Row)
    ensures var next := offset + |EncodedRows(init)|;
            && (At(data, offset, EncodedRows(init + [row])) <==>
                  At(data, offset, EncodedRows(init)) && At(data, next, EncodedRow(row)))
            && offset + |EncodedRows(init + [row])| == next + |EncodedRow(row)|
  {
    RowsOf(init, row);
    AtParts(data, offset, EncodedRows(init), EncodedRow(row));
  }

  /** An encoded table is an encoded shorter table and its last row. */
  lemma AtLastRow(data: Bytes, offset: nat, rows: seq<Row>)
    requires rows != [] && At(data, offset, EncodedRows(rows))
    ensures var init, row := rows[..|rows| - 1], rows[|rows| - 1];
            var next := offset + |EncodedRows(init)|;
            && At(data, offset, EncodedRows(init)) && At(data, next, EncodedRow(row))
            && offset + |EncodedRows(rows)| == next + |EncodedRow(row)|
  {
    assert rows == rows[..|rows| - 1] + [rows[|rows| - 1]];
    AtRows(data, offset, rows[..|rows| - 1], rows[|rows| - 1]);
  }

  lemma ReadsLastRow(data: Bytes, offset: nat, rows: seq<Row>, numCols: nat, next: nat, row: Row)
    requires rows != [] && row == rows[|rows| - 1] && EncodableRow(row) && |row| == numCols
    requires ReadRows(data, offset, numCols, |rows| - 1) == Ok((rows[..|rows| - 1], next))
    requires At(data, next, EncodedRow(row))
    ensures ReadRows(data, offset, numCols, |rows|) == Ok((rows, next + |EncodedRow(row)|))
  {
    ReadsRow(data, next, row);
    NextRow(data, offset, numCols, rows, next, next + |EncodedRow(row)|);
  }

  lemma {:induction false} ReadsRows(data: Bytes, offset: nat, rows: seq<Row>, numCols: nat)
    requires EncodableRows(rows, numCols) && At(data, offset, EncodedRows(rows))
    ensures ReadRows(data, offset, numCols, |rows|) == Ok((rows, offset + |EncodedRows(rows)|))
    decreases |rows|
  {
    if rows != [] {
      var init, row := rows[..|rows| - 1], rows[|rows| - 1];
      var next := offset + |EncodedRows(init)|;
      AtLastRow(data, offset, rows);
      ReadsRows(data, offset, init, numCols);
      ReadsLastRow(data, offset, rows, numCols, next, row);
    }
  }

  /** Decoding an encoded table returns exactly its rows, whatever bytes follow. */
  lemma {:induction false} TableRoundTrip(rows: seq<Row>, numCols: nat, rest: Bytes)
    requires Encodable(rows, numCols)
    ensures Decode(EncodedTable(rows, numCols) + rest) == Table(rows, numCols, |EncodedTable(rows, numCols)|)
  {
    assert At(EncodedTable(rows, numCols) + rest, 0, EncodedTable(rows, numCols));
    DecodesAt(EncodedTable(rows, numCols) + rest, rows, numCols);
  }

  lemma DecodesAt(data: Bytes, rows: seq<Row>, numCols: nat)
    requires Encodable(rows, numCols) && At(data, 0, EncodedTable(rows, numCols))
    ensures Decode(data) == Table(rows, numCols, |EncodedTable(rows, numCols)|)
  {
    AtParts(data, 0, BigEndian(|rows|) + BigEndian(numCols), EncodedRows(rows));
    AtParts(data, 0, BigEndian(|rows|), BigEndian(numCols));
    NumberRoundTrip(|rows|);
    NumberRoundTrip(numCols);
    ReadsRows(data, 8, rows, numCols);
    assert |EncodedTable(rows, numCols)| == 8 + |EncodedRows(rows)|;
  }

  lemma ReadCellIsEncoded(data: Bytes, offset: nat)
    requires ReadCell(data, offset).Ok?
    ensures var (cell, end) := ReadCell(data, offset).value;
            |cell| < LIMIT && At(data, offset, EncodedCell(cell)) && end == offset + |EncodedCell(cell)|
  {
    var (cell, end) := ReadCell(data, offset).value;
    BytesRoundTrip(data[offset..offset + 4]);
    AtParts(data, offset, BigEndian(|cell|), cell);
  }

  lemma {:induction false} ReadRowIsEncoded(data: Bytes, offset: nat, n: nat)
    requires offset <= |data| && ReadRow(data, offset, n).Ok?
    ensures var (row, end) := ReadRow(data, offset, n).value;
            |row| == n && EncodableRow(row) && At(data, offset, EncodedRow(row)) && end == offset + |EncodedRow(row)|
  {
    if n > 0 {
      ReadRowIsEncoded(data, offset, n - 1);
      var (row, next) := ReadRow(data, offset, n - 1).value;
      ReadCellIsEncoded(data, next);
      var cell := ReadCell(data, next).value.0;
      AtParts(data, offset, EncodedRow(row), EncodedCell(cell));
      RowOf(row, cell);
    }
  }

  /** The encoding of `rows` lies between two offsets. */
  predicate RowsBetween(data: Bytes, offset: nat, rows: seq<Row>, numCols: nat, end: nat) {
    EncodableRows(rows, numCols) && At(data, offset, EncodedRows(rows)) && end == offset + |EncodedRows(rows)|
  }

  lemma OneRowMore(data: Bytes, offset: nat, rows: seq<Row>, numCols: nat, next: nat, row: Row)
    requires RowsBetween(data, offset, rows, numCols, next)
    requires EncodableRow(row) && |row| == numCols && At(data, next, EncodedRow(row))
    ensures RowsBetween(data, offset, rows + [row], numCols, next + |EncodedRow(row)|)
  {
    assert (rows + [row])[..|rows|] == rows;
    AtRows(data, offset, rows, row);
  }

  lemma {:induction false} ReadRowsAreEncoded(data: Bytes, offset: nat, numCols: nat, n: nat)
    requires offset <= |data| && ReadRows(data, offset, numCols, n).Ok?
    ensures var (rows, end) := ReadRows(data, offset, numCols, n).value;
            |rows| == n && RowsBetween(data, offset, rows, numCols, end)
  {
    if n > 0 {
      ReadRowsAreEncoded(data, offset, numCols, n - 1);
      var (rows, next) := ReadRows(data, offset, numCols, n - 1).value;
      assert next <= |data|;
      ReadRowIsEncoded(data, next, numCols);
      OneRowMore(data, offset, rows, numCols, next, ReadRow(data, next, numCols).value.0);
    }
  }

  /** The decoder accepts nothing else: a decoded table is the one its consumed bytes encode. */
  lemma {:induction false} DecodedIsEncoded(data: Bytes)
    requires Decode(data).Table?
    ensures var t := Decode(data);
            && Encodable(t.rows, t.numCols) && t.end == |EncodedTable(t.rows, t.numCols)|
            && At(data, 0, EncodedTable(t.rows, t.numCols))
  {
    var t := Decode(data);
    ReadRowsAreEncoded(data, 8, t.numCols, FromBigEndian(data[0..4]));
    BytesRoundTrip(data[0..4]);
    BytesRoundTrip(data[4..8]);
    AtParts(data, 0, data[0..4], data[4..8]);
    AtParts(data, 0, data[0..4] + data[4..8], EncodedRows(t.rows));
  }

  /** A decodable input is exactly one that starts with an encoded table. */
  lemma DecodesIff(data: Bytes, rows: seq<Row>, numCols: nat)
    ensures Decode(data) == Table(rows, numCols, |EncodedTable(rows, numCols)|) <==>
            Encodable(rows, numCols) && At(data, 0, EncodedTable(rows, numCols))
  {
    if Decode(data) == Table(rows, numCols, |EncodedTable(rows, numCols)|) {
      DecodedIsEncoded(data);
    }
    if Encodable(rows, numCols) && At(data, 0, EncodedTable(rows, numCols)) {
      DecodesAt(data, rows, numCols);
    }
  }

  /** The format is self-delimiting: no proper prefix of an encoded table decodes. */
  lemma {:induction false} TruncationIsReported(rows: seq<Row>, numCols: nat, k: nat)
    requires Encodable(rows, numCols) && k < |EncodedTable(rows, numCols)|
    ensures !Decode(EncodedTable(rows, numCols)[..k]).Table?
  {
    var whole := EncodedTable(rows, numCols);
    if Decode(whole[..k]).Table? {
      var t := Decode(whole[..k]);
      DecodedIsEncoded(whole[..k]);
      var part := EncodedTable(t.rows, t.numCols);
      assert whole[..k][0..|part|] == whole[0..|part|];
      DecodesAt(whole, t.rows, t.numCols);
      DecodesAt(whole, rows, numCols);
      assert false;
    }
  }

  /** And injective: tables with the same bytes are the same. */
  lemma EncodingIsInjective(rows: seq<Row>, numCols: nat, rows': seq<Row>, numCols': nat)
    requires Encodable(rows, numCols) && Encodable(rows', numCols')
    requires EncodedTable(rows, numCols) == EncodedTable(rows', numCols')
    ensures rows == rows' && numCols == numCols'
  {
    TableRoundTrip(rows, numCols, []);
    TableRoundTrip(rows', numCols', []);
  }

  // ---- which complaint ------------------------------------------------------------------------

  /**
   Up to `offset` the input holds the counts, complete rows, and cells of the next row, and cells are
   still missing.
   */
  predicate ReadUpTo(data: Bytes, rows: seq<Row>, row: Row, offset: nat) {
    && 8 <= |data|
    && |rows| < FromBigEndian(data[0..4]) && |row| < FromBigEndian(data[4..8])
    && EncodableRows(rows, FromBigEndian(data[4..8])) && EncodableRow(row)
    && At(data, 8, EncodedRows(rows)) && At(data, 8 + |EncodedRows(rows)|, EncodedRow(row))
    && offset == 8 + |EncodedRows(rows)| + |EncodedRow(row)|
  }

  /** The input ends inside the length of a cell. */
  predicate CutLength(data: Bytes, offset: nat) {
    |data| < offset + 4
  }

  /** The length is there, and reaches beyond the end. */
  predicate CutCell(data: Bytes, offset: nat) {
    offset + 4 <= |data| < offset + 4 + FromBigEndian(data[offset..offset + 4])
  }

  lemma {:induction false} FailsInRow(data: Bytes, start: nat, n: nat, e: ReadError) returns (row: Row, offset: nat)
    requires start <= |data| && ReadRow(data, start, n) == Err(e)
    ensures |row| < n && EncodableRow(row) && At(data, start, EncodedRow(row)) && offset == start + |EncodedRow(row)|
    ensures ReadCell(data, offset) == Err(e)
  {
    match ReadRow(data, start, n - 1)
    case Err(_) => row, offset := FailsInRow(data, start, n - 1, e);
    case Ok(r) =>
      ReadRowIsEncoded(data, start, n - 1);
      row, offset := r.0, r.1;
  }

  lemma {:induction false} FailsInRows(data: Bytes, start: nat, numCols: nat, n: nat, e: ReadError)
    returns (rows: seq<Row>, next: nat)
    requires start <= |data| && ReadRows(data, start, numCols, n) == Err(e)
    ensures |rows| < n && RowsBetween(data, start, rows, numCols, next) && ReadRow(data, next, numCols) == Err(e)
  {
    match ReadRows(data, start, numCols, n - 1)
    case Err(_) => rows, next := FailsInRows(data, start, numCols, n - 1, e);
    case Ok(r) =>
      ReadRowsAreEncoded(data, start, numCols, n - 1);
      rows, next := r.0, r.1;
  }

  lemma StopsAt(data: Bytes, rows: seq<Row>, row: Row, offset: nat, e: ReadError)
    requires ReadUpTo(data, rows, row, offset) && ReadCell(data, offset) == Err(e)
    ensures Decode(data) == match e case NoLength => UnexpectedEnd case NoData => OutOfBounds
  {
    var numRows, numCols := FromBigEndian(data[0..4]), FromBigEndian(data[4..8]);
    StopsInRow(data, 8 + |EncodedRows(rows)|, numCols, row, offset, e);
    StopsInRows(data, 8, numRows, numCols, rows, 8 + |EncodedRows(rows)|, e);
  }

  lemma StopsInRow(data: Bytes, start: nat, numCols: nat, row: Row, offset: nat, e: ReadError)
    requires EncodableRow(row) && At(data, start, EncodedRow(row)) && |row| < numCols
    requires offset == start + |EncodedRow(row)| && ReadCell(data, offset) == Err(e)
    ensures ReadRow(data, start, numCols) == Err(e)
  {
    ReadsRow(data, start, row);
    FailingRow(data, start, numCols, |row| + 1, e);
  }

  lemma StopsInRows(data: Bytes, start: nat, numRows: nat, numCols: nat, rows: seq<Row>, next: nat, e: ReadError)
    requires EncodableRows(rows, numCols) && At(data, start, EncodedRows(rows)) && |rows| < numRows
    requires next == start + |EncodedRows(rows)| && ReadRow(data, next, numCols) == Err(e)
    ensures ReadRows(data, start, numCols, numRows) == Err(e)
  {
    ReadsRows(data, start, rows, numCols);
    FailingRows(data, start, numCols, numRows, |rows| + 1, e);
  }

  /** The three complaints, for any input: no counts, a length that is cut, a cell that is cut. */
  lemma {:induction false} ComplaintsIff(data: Bytes)
    ensures Decode(data) == InvalidData <==> |data| < 8
    ensures Decode(data) == UnexpectedEnd <==>
            exists rows, row, offset :: ReadUpTo(data, rows, row, offset) && CutLength(data, offset)
    ensures Decode(data) == OutOfBounds <==>
            exists rows, row, offset :: ReadUpTo(data, rows, row, offset) && CutCell(data, offset)
  {
    if 8 <= |data| {
      var numRows, numCols := FromBigEndian(data[0..4]), FromBigEndian(data[4..8]);
      if ReadRows(data, 8, numCols, numRows).Err? {
        var e := ReadRows(data, 8, numCols, numRows).error;
        var rows, next := FailsInRows(data, 8, numCols, numRows, e);
        var row, offset := FailsInRow(data, next, numCols, e);
        assert ReadUpTo(data, rows, row, offset);
        assert if e == NoLength then CutLength(data, offset) else CutCell(data, offset);
      }
    }
    forall rows, row, offset: nat | ReadUpTo(data, rows, row, offset)
      ensures CutLength(data, offset) ==> Decode(data) == UnexpectedEnd
      ensures CutCell(data, offset) ==> Decode(data) == OutOfBounds
    {
      if CutLength(data, offset) { StopsAt(data, rows, row, offset, NoLength); }
      if CutCell(data, offset) { StopsAt(data, rows, row, offset, NoData); }
    }
  }

  // ---- the bytes ------------------------------------------------------------------------------

  /** The bytes of a number, most significant first. */
  function Octets(n: nat): Bytes {
    [n / 0x100_0000 % 256, n / 0x1_0000 % 256, n / 0x100 % 256, n % 256]
  }

  /** The number of rows, the number of columns, and all cells row by row, each behind its length. */
  function Cells(row: Row): Bytes {
    if row == [] then [] else Octets(|row[0]|) + row[0] + Cells(row[1..])
  }

  function Rows(rows: seq<Row>): Bytes {
    if rows == [] then [] else Cells(rows[0]) + Rows(rows[1..])
  }

  lemma {:induction false} RowFromLeft(row: Row)
    requires forall j :: 0 <= j < |row| ==> |row[j]| < LIMIT
    ensures EncodedRow(row) == Cells(row)
  {
    if row != [] {
      RowFromLeft(row[1..]);
      CellFirst(row[0], row[1..]);
      assert row == [row[0]] + row[1..];
      ShiftedBytes(|row[0]|);
    }
  }

  lemma {:induction false} CellFirst(cell: Bytes, rest: Row)
    ensures EncodedRow([cell] + rest) == EncodedCell(cell) + EncodedRow(rest)
  {
    if rest == [] {
      assert [cell] + rest == [cell] && [cell][..0] == [];
      assert EncodedRow([cell]) == EncodedCell(cell);
      assert EncodedCell(cell) + [] == EncodedCell(cell);
    } else {
      var init, last := rest[..|rest| - 1], rest[|rest| - 1];
      assert [cell] + rest == ([cell] + init) + [last];
      RowOf([cell] + init, last);
      CellFirst(cell, init);
      Regroup([], EncodedCell(cell), EncodedRow(init), EncodedCell(last));
      assert [] + EncodedCell(cell) == EncodedCell(cell);
    }
  }

  lemma {:induction false} RowFirst(row: Row, rest: seq<Row>)
    ensures EncodedRows([row] + rest) == EncodedRow(row) + EncodedRows(rest)
  {
    if rest == [] {
      assert [row] + rest == [row] && [row][..0] == [];
      assert EncodedRow(row) + [] == EncodedRow(row);
    } else {
      var init, last := rest[..|rest| - 1], rest[|rest| - 1];
      assert [row] + rest == ([row] + init) + [last];
      RowsOf([row] + init, last);
      RowFirst(row, init);
      Regroup([], EncodedRow(row), EncodedRows(init), EncodedRow(last));
      assert [] + EncodedRow(row) == EncodedRow(row);
    }
  }

  lemma {:induction false} RowsFromLeft(rows: seq<Row>)
    requires forall i, j :: 0 <= i < |rows| && 0 <= j < |rows[i]| ==> |rows[i][j]| < LIMIT
    ensures EncodedRows(rows) == Rows(rows)
  {
    if rows != [] {
      RowsFromLeft(rows[1..]);
      RowFirst(rows[0], rows[1..]);
      assert rows == [rows[0]] + rows[1..];
      RowFromLeft(rows[0]);
    }
  }

  /** The encoding byte by byte. */
  lemma TableLayout(rows: seq<Row>, numCols: nat)
    requires |rows| < LIMIT && numCols < LIMIT
    requires forall i, j :: 0 <= i < |rows| && 0 <= j < |rows[i]| ==> |rows[i][j]| < LIMIT
    ensures EncodedTable(rows, numCols) == Octets(|rows|) + Octets(numCols) + Rows(rows)
  {
    RowsFromLeft(rows);
    ShiftedBytes(|rows|);
    ShiftedBytes(numCols);
  }
}
