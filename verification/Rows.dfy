// Rows of fixed-width words and length-prefixed texts: what every payload format
// is made of, and why reading one undoes writing it.

module Rows {
  import opened Core
  import opened Bytes

  const MAX_TEXT_BYTES: nat := 256

  datatype Value = Word(n: nat, width: nat) | Text(t: seq<byte>)

  datatype Shape = WordOf(width: nat) | TextOf

  /** A value a reader of this shape can return. */
  ghost predicate Fits(v: Value, s: Shape) {
    match v
    case Word(n, width) => s == WordOf(width) && n < Pow256(width)
    case Text(t) => s == TextOf && |t| <= MAX_TEXT_BYTES
  }

  ghost predicate RowFits(row: seq<Value>, shape: seq<Shape>) {
    |row| == |shape| && forall i :: 0 <= i < |row| ==> Fits(row[i], shape[i])
  }

  function PutValue(b: seq<byte>, v: Value): seq<byte> {
    match v
    case Word(n, width) => b + Le(n, width)
    case Text(t) => PutBlob(b, t)
  }

  function PutRow(b: seq<byte>, row: seq<Value>): seq<byte> {
    if row == [] then b else PutValue(PutRow(b, row[..|row| - 1]), row[|row| - 1])
  }

  function PutRows(b: seq<byte>, rows: seq<seq<Value>>): seq<byte> {
    if rows == [] then b else PutRow(PutRows(b, rows[..|rows| - 1]), rows[|rows| - 1])
  }

  function ReadValue(data: seq<byte>, offset: nat, s: Shape): Option<(Value, nat)> {
    match s
    case WordOf(width) =>
      if offset + width > |data| then None else Some((Word(At(data, offset, width), width), offset + width))
    case TextOf =>
      match ReadBlob(data, offset, MAX_TEXT_BYTES)
      case None => None
      case Some((t, after)) => Some((Text(t), after))
  }

  /** The values of a row and the offset after it. */
  function ReadRow(data: seq<byte>, offset: nat, shape: seq<Shape>): (r: Option<(seq<Value>, nat)>)
    ensures r.Some? ==> |r.value.0| == |shape| && offset <= r.value.1
    ensures r.Some? && offset <= |data| ==> r.value.1 <= |data|
  {
    if shape == [] then Some(([], offset))
    else
      match ReadRow(data, offset, shape[..|shape| - 1])
      case None => None
      case Some((front, middle)) =>
        match ReadValue(data, middle, shape[|shape| - 1])
        case None => None
        case Some((last, after)) => Some((front + [last], after))
  }

  function ReadRows(data: seq<byte>, offset: nat, shape: seq<Shape>, count: nat): (r: Option<(seq<seq<Value>>, nat)>)
    ensures r.Some? ==> |r.value.0| == count
    ensures r.Some? && offset <= |data| ==> r.value.1 <= |data|
  {
    if count == 0 then Some(([], offset))
    else
      match ReadRows(data, offset, shape, count - 1)
      case None => None
      case Some((front, middle)) =>
        match ReadRow(data, middle, shape)
        case None => None
        case Some((last, after)) => Some((front + [last], after))
  }

  /** The number or text in a column; a reader only asks for what the shape has. */
  function NumberAt(row: seq<Value>, i: nat): nat {
    if i < |row| && row[i].Word? then row[i].n else 0
  }

  function U64At(row: seq<Value>, i: nat): u64 {
    var n := NumberAt(row, i);
    if n < U64_END then n else 0
  }

  function U32At(row: seq<Value>, i: nat): u32 {
    var n := NumberAt(row, i);
    if n < U32_END then n else 0
  }

  function TextAt(row: seq<Value>, i: nat): seq<byte> {
    if i < |row| && row[i].Text? then row[i].t else []
  }

  // --- Reading undoes writing ------------------------------------------------------------

  lemma {:induction false} ValueReadBack(front: seq<byte>, v: Value, s: Shape, data: seq<byte>)
    requires Fits(v, s) && PutValue(front, v) <= data
    ensures ReadValue(data, |front|, s) == Some((v, |PutValue(front, v)|)) && front <= data
  {
    match v
    case Word(n, width) => ReadBack(front, n, width, data);
    case Text(t) => ReadBackPutBlob(front, t, MAX_TEXT_BYTES, data);
  }

  lemma {:induction false} RowReadBack(front: seq<byte>, row: seq<Value>, shape: seq<Shape>, data: seq<byte>)
    requires RowFits(row, shape) && PutRow(front, row) <= data
    ensures ReadRow(data, |front|, shape) == Some((row, |PutRow(front, row)|)) && front <= data
    decreases |row|
  {
    if row != [] {
      var k := |row| - 1;
      ValueReadBack(PutRow(front, row[..k]), row[k], shape[k], data);
      RowReadBack(front, row[..k], shape[..k], data);
      assert row == row[..k] + [row[k]];
    }
  }

  lemma {:induction false} RowsReadBack(front: seq<byte>, rows: seq<seq<Value>>, shape: seq<Shape>, data: seq<byte>)
    requires (forall i :: 0 <= i < |rows| ==> RowFits(rows[i], shape)) && PutRows(front, rows) <= data
    ensures ReadRows(data, |front|, shape, |rows|) == Some((rows, |PutRows(front, rows)|)) && front <= data
    decreases |rows|
  {
    if rows != [] {
      var k := |rows| - 1;
      RowReadBack(PutRows(front, rows[..k]), rows[k], shape, data);
      RowsReadBack(front, rows[..k], shape, data);
      assert rows == rows[..k] + [rows[k]];
    }
  }

  /** What was read fits the shape it was read by. */
  lemma {:induction false} ReadFits(data: seq<byte>, offset: nat, shape: seq<Shape>)
    requires ReadRow(data, offset, shape).Some?
    ensures RowFits(ReadRow(data, offset, shape).value.0, shape)
    decreases |shape|
  {
    if shape != [] {
      var k := |shape| - 1;
      ReadFits(data, offset, shape[..k]);
      var middle := ReadRow(data, offset, shape[..k]).value.1;
      match shape[k]
      case WordOf(width) => AtFits(data, middle, width);
      case TextOf =>
    }
  }

  // --- Sizes -------------------------------------------------------------------------------

  function ValueSize(v: Value): nat {
    match v
    case Word(_, width) => width
    case Text(t) => 4 + |t|
  }

  function RowSize(row: seq<Value>): nat {
    if row == [] then 0 else RowSize(row[..|row| - 1]) + ValueSize(row[|row| - 1])
  }

  lemma {:induction false} RowSizeConcat(a: seq<Value>, b: seq<Value>)
    ensures RowSize(a + b) == RowSize(a) + RowSize(b)
    decreases |b|
  {
    if b == [] {
      assert a + b == a;
    } else {
      RowSizeConcat(a, b[..|b| - 1]);
      assert (a + b)[..|a + b| - 1] == a + b[..|b| - 1];
    }
  }

  /** A row of words of one width. */
  lemma {:induction false} UniformSize(row: seq<Value>, width: nat)
    requires forall i :: 0 <= i < |row| ==> row[i].Word? && row[i].width == width
    ensures RowSize(row) == |row| * width
    decreases |row|
  {
    if row != [] {
      UniformSize(row[..|row| - 1], width);
      TimesStep(|row| - 1, width);
    }
  }

  /** Every value takes at most a full text's room. */
  lemma {:induction false} RowBounded(row: seq<Value>, shape: seq<Shape>)
    requires RowFits(row, shape) && forall i :: 0 <= i < |shape| ==> shape[i].WordOf? ==> shape[i].width <= 8
    ensures RowSize(row) <= |row| * 260
    decreases |row|
  {
    if row != [] {
      RowBounded(row[..|row| - 1], shape[..|row| - 1]);
      assert Fits(row[|row| - 1], shape[|row| - 1]);
    }
  }

  lemma {:induction false} WordsBounded(row: seq<Value>)
    requires forall i :: 0 <= i < |row| ==> row[i].Word? && row[i].width <= 8
    ensures RowSize(row) <= |row| * 8
    decreases |row|
  {
    if row != [] {
      WordsBounded(row[..|row| - 1]);
    }
  }

  lemma {:induction false} OneValue(v: Value)
    ensures RowSize([v]) == ValueSize(v)
  {
    assert [v][..0] == [];
  }

  lemma {:induction false} RowLength(b: seq<byte>, row: seq<Value>)
    ensures |PutRow(b, row)| == |b| + RowSize(row)
    decreases |row|
  {
    if row != [] {
      RowLength(b, row[..|row| - 1]);
    }
  }

  lemma {:induction false} TimesStep(k: nat, size: nat)
    ensures (k + 1) * size == k * size + size
  {
  }

  lemma {:induction false} RowsLength(b: seq<byte>, rows: seq<seq<Value>>, most: nat)
    requires forall i :: 0 <= i < |rows| ==> RowSize(rows[i]) <= most
    ensures |PutRows(b, rows)| <= |b| + |rows| * most
    decreases |rows|
  {
    if rows != [] {
      var k := |rows| - 1;
      RowsLength(b, rows[..k], most);
      RowLength(PutRows(b, rows[..k]), rows[k]);
      TimesStep(k, most);
    }
  }

  lemma {:induction false} RowsLengthExactly(b: seq<byte>, rows: seq<seq<Value>>, size: nat)
    requires forall i :: 0 <= i < |rows| ==> RowSize(rows[i]) == size
    ensures |PutRows(b, rows)| == |b| + |rows| * size
    decreases |rows|
  {
    if rows != [] {
      var k := |rows| - 1;
      RowsLengthExactly(b, rows[..k], size);
      RowLength(PutRows(b, rows[..k]), rows[k]);
      TimesStep(k, size);
    }
  }

  // --- The writer and the reader -------------------------------------------------------------

  method WriteRow(writer: ByteWriter, row: seq<Value>)
    modifies writer
    ensures writer.buffer == PutRow(old(writer.buffer), row)
  {
    for i := 0 to |row|
      invariant writer.buffer == PutRow(old(writer.buffer), row[..i])
    {
      assert row[..i + 1][..i] == row[..i];
      match row[i]
      case Word(n, width) => writer.Word(n, width);
      case Text(t) => writer.Blob(t);
    }
    assert row[..|row|] == row;
  }

  method WriteRows(writer: ByteWriter, rows: seq<seq<Value>>)
    modifies writer
    ensures writer.buffer == PutRows(old(writer.buffer), rows)
  {
    for i := 0 to |rows|
      invariant writer.buffer == PutRows(old(writer.buffer), rows[..i])
    {
      assert rows[..i + 1][..i] == rows[..i];
      WriteRow(writer, rows[i]);
    }
    assert rows[..|rows|] == rows;
  }

  method NextValue(reader: ByteReader, s: Shape) returns (r: Option<Value>)
    requires reader.Valid()
    modifies reader
    ensures reader.Valid()
    ensures r.Some? <==> ReadValue(reader.data, old(reader.offset), s).Some?
    ensures r.Some? ==> ReadValue(reader.data, old(reader.offset), s) == Some((r.value, reader.offset))
  {
    match s
    case WordOf(width) =>
      var ok, n := reader.Word(width);
      r := if ok then Some(Word(n, width)) else None;
    case TextOf =>
      var ok, t := reader.Blob(MAX_TEXT_BYTES);
      r := if ok then Some(Text(t)) else None;
  }

  /** Reads a row value by value, stopping at the first that does not fit. */
  method NextRow(reader: ByteReader, shape: seq<Shape>) returns (r: Option<seq<Value>>)
    requires reader.Valid()
    modifies reader
    ensures reader.Valid()
    ensures r.Some? <==> ReadRow(reader.data, old(reader.offset), shape).Some?
    ensures r.Some? ==> ReadRow(reader.data, old(reader.offset), shape) == Some((r.value, reader.offset))
  {
    var row := [];
    for i := 0 to |shape|
      invariant reader.Valid()
      invariant ReadRow(reader.data, old(reader.offset), shape[..i]) == Some((row, reader.offset))
    {
      assert shape[..i + 1][..i] == shape[..i];
      var v := NextValue(reader, shape[i]);
      if v.None? {
        NoRowPast(reader.data, old(reader.offset), shape, i + 1);
        return None;
      }
      row := row + [v.value];
    }
    assert shape[..|shape|] == shape;
    r := Some(row);
  }

  lemma {:induction false} NoRowPast(data: seq<byte>, offset: nat, shape: seq<Shape>, i: nat)
    requires i <= |shape| && ReadRow(data, offset, shape[..i]).None?
    ensures ReadRow(data, offset, shape).None?
    decreases |shape|
  {
    if i < |shape| {
      var front := shape[..|shape| - 1];
      assert front[..i] == shape[..i];
      NoRowPast(data, offset, front, i);
    } else {
      assert shape[..i] == shape;
    }
  }

  /** Reads count rows of one shape. */
  method NextRows(reader: ByteReader, shape: seq<Shape>, count: nat) returns (r: Option<seq<seq<Value>>>)
    requires reader.Valid()
    modifies reader
    ensures reader.Valid()
    ensures r.Some? <==> ReadRows(reader.data, old(reader.offset), shape, count).Some?
    ensures r.Some? ==> ReadRows(reader.data, old(reader.offset), shape, count) == Some((r.value, reader.offset))
  {
    var rows := [];
    for i := 0 to count
      invariant reader.Valid()
      invariant ReadRows(reader.data, old(reader.offset), shape, i) == Some((rows, reader.offset))
    {
      var row := NextRow(reader, shape);
      if row.None? {
        NoRowsPast(reader.data, old(reader.offset), shape, i + 1, count);
        return None;
      }
      rows := rows + [row.value];
    }
    r := Some(rows);
  }

  lemma {:induction false} NoRowsPast(data: seq<byte>, offset: nat, shape: seq<Shape>, i: nat, count: nat)
    requires i <= count && ReadRows(data, offset, shape, i).None?
    ensures ReadRows(data, offset, shape, count).None?
    decreases count
  {
    if i < count {
      NoRowsPast(data, offset, shape, i, count - 1);
    }
  }

  // --- Signed words and flags ---------------------------------------------------------------

  /** Two's complement on 64 bits. */
  function FromI64(x: i64): u64 {
    if x < 0 then x + U64_END else x
  }

  function ToI64(n: u64): i64 {
    if n > I64_MAX then n - U64_END else n
  }

  function FromI32(x: i32): u32 {
    if x < 0 then x + U32_END else x
  }

  function ToI32(n: u32): i32 {
    if n > 0x7FFF_FFFF then n - U32_END else n
  }

  function Flag(b: bool): nat {
    if b then 1 else 0
  }

  lemma {:induction false} SignedRoundTrip(x: i64, y: i32)
    ensures ToI64(FromI64(x)) == x && ToI32(FromI32(y)) == y
  {
  }
}
