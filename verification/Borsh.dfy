/**
 The Borsh encoders of the signing lanes, driven by schemas: a body encoder of the source is the list of
 its fields in order. Integers wrap to their width, as `>>> 0`, `& 0xff` and `setBigUint64` do.
 */
module Borsh {
  import opened Bytes
  import opened Common

  /** A column: an integer of some width, a fixed-length byte string, or a length-prefixed one. */
  datatype Column = UInt(width: nat) | Fixed(size: nat) | Vec

  datatype Cell = Num(n: int) | Raw(bytes: Bytes)

  /** A field: a column, an optional integer, a book asset, or a counted table. */
  datatype Kind = One(column: Column) | Maybe(width: nat) | BookAsset | Table(columns: seq<Column>)

  datatype Value =
    | Plain(cell: Cell)
    | Absent
    | Present(n: int)
    | NativeDrc
    | Issued(issuer: Bytes, currency: Bytes)
    | Rows(rows: seq<seq<Cell>>)

  datatype Field = Field(name: string, kind: Kind)

  // ---------------------------------------------------------------------------
  // Encoders; nothing means that a length check threw
  // ---------------------------------------------------------------------------

  /** The low `width` bytes, least significant first. */
  function Le(width: nat, n: int): Bytes { if width == 0 then [] else [n % 256] + Le(width - 1, n / 256) }

  predicate HasColumn(t: Column, c: Cell) { t.UInt? <==> c.Num? }

  function EncodeVec(b: Bytes): Bytes { Le(4, |b|) + b }

  function EncodeCell(t: Column, c: Cell): Option<Bytes>
    requires HasColumn(t, c)
  {
    match t
    case UInt(width) => Some(Le(width, c.n))
    case Fixed(size) => if |c.bytes| == size then Some(c.bytes) else None
    case Vec => Some(EncodeVec(c.bytes))
  }

  function Join(a: Option<Bytes>, b: Option<Bytes>): Option<Bytes>
  {
    if a.Some? && b.Some? then Some(a.value + b.value) else None
  }

  predicate HasColumns(ts: seq<Column>, row: seq<Cell>)
  {
    |ts| == |row| && forall i :: 0 <= i < |ts| ==> HasColumn(ts[i], row[i])
  }

  function EncodeRow(ts: seq<Column>, row: seq<Cell>): Option<Bytes>
    requires HasColumns(ts, row)
  {
    if |ts| == 0 then Some([]) else Join(EncodeCell(ts[0], row[0]), EncodeRow(ts[1..], row[1..]))
  }

  predicate HasRows(ts: seq<Column>, rows: seq<seq<Cell>>)
  {
    forall i :: 0 <= i < |rows| ==> HasColumns(ts, rows[i])
  }

  function EncodeRows(ts: seq<Column>, rows: seq<seq<Cell>>): Option<Bytes>
    requires HasRows(ts, rows)
  {
    if |rows| == 0 then Some([]) else Join(EncodeRow(ts, rows[0]), EncodeRows(ts, rows[1..]))
  }

  predicate HasKind(k: Kind, v: Value)
  {
    match k
    case One(t) => v.Plain? && HasColumn(t, v.cell)
    case Maybe(_) => v.Absent? || v.Present?
    case BookAsset => v.NativeDrc? || v.Issued?
    case Table(ts) => v.Rows? && HasRows(ts, v.rows)
  }

  function EncodeValue(k: Kind, v: Value): Option<Bytes>
    requires HasKind(k, v)
  {
    match k
    case One(t) => EncodeCell(t, v.cell)
    case Maybe(width) => if v.Absent? then Some([0]) else Some([1] + Le(width, v.n))
    case BookAsset =>
      if v.NativeDrc? then Some([1])
      else if |v.issuer| == 20 && |v.currency| == 20 then Some([2] + v.issuer + v.currency)
      else None
    case Table(ts) => Join(Some(Le(4, |v.rows|)), EncodeRows(ts, v.rows))
  }

  predicate HasFields(fs: seq<Field>, vs: seq<Value>)
  {
    |fs| == |vs| && forall i :: 0 <= i < |fs| ==> HasKind(fs[i].kind, vs[i])
  }

  function EncodeAll(fs: seq<Field>, vs: seq<Value>): Option<Bytes>
    requires HasFields(fs, vs)
  {
    if |fs| == 0 then Some([]) else Join(EncodeValue(fs[0].kind, vs[0]), EncodeAll(fs[1..], vs[1..]))
  }

  // ---------------------------------------------------------------------------
  // Decoders
  // ---------------------------------------------------------------------------

  datatype Read<+T> = Bad | Read(got: T, rest: Bytes)

  function FromLe(b: Bytes): nat { if |b| == 0 then 0 else b[0] + 256 * FromLe(b[1..]) }

  function Take(n: nat, b: Bytes): Read<Bytes> { if |b| < n then Bad else Read(b[..n], b[n..]) }

  function ReadUInt(width: nat, b: Bytes): Read<int>
  {
    match Take(width, b)
    case Bad => Bad
    case Read(got, rest) => Read(FromLe(got), rest)
  }

  function ReadVec(b: Bytes): Read<Bytes>
  {
    match ReadUInt(4, b)
    case Bad => Bad
    case Read(n, rest) => if n < 0 then Bad else Take(n, rest)
  }

  function ReadCell(t: Column, b: Bytes): Read<Cell>
  {
    match t
    case UInt(width) => (match ReadUInt(width, b) case Bad => Bad case Read(n, rest) => Read(Num(n), rest))
    case Fixed(size) => (match Take(size, b) case Bad => Bad case Read(got, rest) => Read(Raw(got), rest))
    case Vec => match ReadVec(b) case Bad => Bad case Read(got, rest) => Read(Raw(got), rest)
  }

  function ReadRow(ts: seq<Column>, b: Bytes): Read<seq<Cell>>
  {
    if |ts| == 0 then Read([], b)
    else
      match ReadCell(ts[0], b)
      case Bad => Bad
      case Read(cell, rest) =>
        match ReadRow(ts[1..], rest)
        case Bad => Bad
        case Read(cells, rest') => Read([cell] + cells, rest')
  }

  function ReadRows(ts: seq<Column>, count: nat, b: Bytes): Read<seq<seq<Cell>>>
  {
    if count == 0 then Read([], b)
    else
      match ReadRow(ts, b)
      case Bad => Bad
      case Read(row, rest) =>
        match ReadRows(ts, count - 1, rest)
        case Bad => Bad
        case Read(rows, rest') => Read([row] + rows, rest')
  }

  function ReadMaybe(width: nat, b: Bytes): Read<Value>
  {
    if |b| == 0 then Bad
    else if b[0] == 0 then Read(Absent, b[1..])
    else if b[0] == 1 then
      match ReadUInt(width, b[1..])
      case Bad => Bad
      case Read(n, rest) => Read(Present(n), rest)
    else Bad
  }

  function ReadAsset(b: Bytes): Read<Value>
  {
    if |b| == 0 then Bad
    else if b[0] == 1 then Read(NativeDrc, b[1..])
    else if b[0] == 2 && |b| >= 41 then Read(Issued(b[1..21], b[21..41]), b[41..])
    else Bad
  }

  function ReadTable(ts: seq<Column>, b: Bytes): Read<Value>
  {
    match ReadUInt(4, b)
    case Bad => Bad
    case Read(count, rest) =>
      if count < 0 then Bad
      else
        match ReadRows(ts, count, rest)
        case Bad => Bad
        case Read(rows, rest') => Read(Rows(rows), rest')
  }

  function ReadValue(k: Kind, b: Bytes): Read<Value>
  {
    match k
    case One(t) => (match ReadCell(t, b) case Bad => Bad case Read(cell, rest) => Read(Plain(cell), rest))
    case Maybe(width) => ReadMaybe(width, b)
    case BookAsset => ReadAsset(b)
    case Table(ts) => ReadTable(ts, b)
  }

  function ReadAll(fs: seq<Field>, b: Bytes): Read<seq<Value>>
  {
    if |fs| == 0 then Read([], b)
    else
      match ReadValue(fs[0].kind, b)
      case Bad => Bad
      case Read(v, rest) =>
        match ReadAll(fs[1..], rest)
        case Bad => Bad
        case Read(vs, rest') => Read([v] + vs, rest')
  }

  // ---------------------------------------------------------------------------
  // What is left of a value on the wire
  // ---------------------------------------------------------------------------

  /** The value modulo 256^width. */
  function Wrap(width: nat, n: int): nat { if width == 0 then 0 else n % 256 + 256 * Wrap(width - 1, n / 256) }

  function WrapCell(t: Column, c: Cell): Cell { if t.UInt? && c.Num? then Num(Wrap(t.width, c.n)) else c }

  function WrapRow(ts: seq<Column>, row: seq<Cell>): seq<Cell>
    requires |ts| == |row|
  {
    if |ts| == 0 then [] else [WrapCell(ts[0], row[0])] + WrapRow(ts[1..], row[1..])
  }

  function WrapRows(ts: seq<Column>, rows: seq<seq<Cell>>): seq<seq<Cell>>
    requires HasRows(ts, rows)
  {
    if |rows| == 0 then [] else [WrapRow(ts, rows[0])] + WrapRows(ts, rows[1..])
  }

  function WrapValue(k: Kind, v: Value): Value
    requires HasKind(k, v)
  {
    match k
    case One(t) => Plain(WrapCell(t, v.cell))
    case Maybe(width) => if v.Present? then Present(Wrap(width, v.n)) else v
    case BookAsset => v
    case Table(ts) => Rows(WrapRows(ts, v.rows))
  }

  function WrapAll(fs: seq<Field>, vs: seq<Value>): seq<Value>
    requires HasFields(fs, vs)
  {
    if |fs| == 0 then [] else [WrapValue(fs[0].kind, vs[0])] + WrapAll(fs[1..], vs[1..])
  }

  const TWO32 := 0x1_0000_0000

  /** Lengths and counts fit their 32-bit prefix. */
  predicate CellFits(t: Column, c: Cell) { t.Vec? && c.Raw? ==> |c.bytes| < TWO32 }

  predicate RowFits(ts: seq<Column>, row: seq<Cell>)
    requires |ts| == |row|
  {
    |ts| == 0 || (CellFits(ts[0], row[0]) && RowFits(ts[1..], row[1..]))
  }

  predicate RowsFit(ts: seq<Column>, rows: seq<seq<Cell>>)
    requires HasRows(ts, rows)
  {
    |rows| == 0 || (RowFits(ts, rows[0]) && RowsFit(ts, rows[1..]))
  }

  predicate Fits(k: Kind, v: Value)
    requires HasKind(k, v)
  {
    match k
    case One(t) => CellFits(t, v.cell)
    case Table(ts) => |v.rows| < TWO32 && RowsFit(ts, v.rows)
    case _ => true
  }

  predicate AllFit(fs: seq<Field>, vs: seq<Value>)
    requires HasFields(fs, vs)
  {
    |fs| == 0 || (Fits(fs[0].kind, vs[0]) && AllFit(fs[1..], vs[1..]))
  }

  // ---------------------------------------------------------------------------
  // Unique decodability
  // ---------------------------------------------------------------------------

  lemma {:induction false} LeRead(width: nat, n: int)
    ensures |Le(width, n)| == width && FromLe(Le(width, n)) == Wrap(width, n)
  {
    if width > 0 {
      LeRead(width - 1, n / 256);
      assert Le(width, n)[1..] == Le(width - 1, n / 256);
    }
  }

  lemma {:induction false} LeWrapped(width: nat, n: int)
    ensures Le(width, Wrap(width, n)) == Le(width, n)
  {
    if width > 0 {
      LeWrapped(width - 1, n / 256);
      var w := Wrap(width - 1, n / 256);
      assert Wrap(width, n) % 256 == n % 256 && Wrap(width, n) / 256 == w;
    }
  }

  lemma TakeAppend(a: Bytes, rest: Bytes)
    ensures Take(|a|, a + rest) == Read(a, rest)
  {
  }

  lemma ReadUIntLe(width: nat, n: int, rest: Bytes)
    ensures ReadUInt(width, Le(width, n) + rest) == Read(Wrap(width, n), rest)
  {
  }

  lemma WrapSmall(n: nat)
    requires n < TWO32
    ensures Wrap(4, n) == n
  {
    assert Wrap(4, n) == n % 256 + 256 * Wrap(3, n / 256);
    assert Wrap(3, n / 256) == n / 256 % 256 + 256 * Wrap(2, n / 256 / 256);
    assert Wrap(2, n / 256 / 256) == n / 256 / 256 % 256 + 256 * Wrap(1, n / 256 / 256 / 256);
  }

  lemma ReadVecEncoded(b: Bytes, rest: Bytes)
    requires |b| < TWO32
    ensures ReadVec(EncodeVec(b) + rest) == Read(b, rest)
  {
    hide Le, Wrap, FromLe, Take;
    assert EncodeVec(b) + rest == Le(4, |b|) + (b + rest);
    ReadUIntLe(4, |b|, b + rest);
    WrapSmall(|b|);
    TakeAppend(b, rest);
  }

  lemma CellDecodes(t: Column, c: Cell, rest: Bytes)
    requires HasColumn(t, c) && CellFits(t, c) && EncodeCell(t, c).Some?
    ensures ReadCell(t, EncodeCell(t, c).value + rest) == Read(WrapCell(t, c), rest)
  {
    hide Le, Wrap, FromLe, ReadUInt, ReadVec, EncodeVec, Take;
    match t
    case UInt(width) => ReadUIntLe(width, c.n, rest);
    case Fixed(size) => TakeAppend(c.bytes, rest);
    case Vec => ReadVecEncoded(c.bytes, rest);
  }

  lemma Assoc(a: Bytes, b: Bytes, c: Bytes)
    ensures a + b + c == a + (b + c)
  {
  }

  lemma {:induction false} RowDecodes(ts: seq<Column>, row: seq<Cell>, rest: Bytes)
    requires HasColumns(ts, row) && RowFits(ts, row) && EncodeRow(ts, row).Some?
    ensures ReadRow(ts, EncodeRow(ts, row).value + rest) == Read(WrapRow(ts, row), rest)
  {
    hide EncodeCell, ReadCell, WrapCell, CellFits;
    if |ts| == 0 {
      assert [] + rest == rest;
    } else {
      var a, b := EncodeCell(ts[0], row[0]).value, EncodeRow(ts[1..], row[1..]).value;
      Assoc(a, b, rest);
      CellDecodes(ts[0], row[0], b + rest);
      RowDecodes(ts[1..], row[1..], rest);
    }
  }

  lemma {:induction false} RowsDecode(ts: seq<Column>, rows: seq<seq<Cell>>, rest: Bytes)
    requires HasRows(ts, rows) && RowsFit(ts, rows) && EncodeRows(ts, rows).Some?
    ensures ReadRows(ts, |rows|, EncodeRows(ts, rows).value + rest) == Read(WrapRows(ts, rows), rest)
  {
    hide EncodeRow, ReadRow, WrapRow, RowFits;
    if |rows| == 0 {
      assert [] + rest == rest;
    } else {
      var a, b := EncodeRow(ts, rows[0]).value, EncodeRows(ts, rows[1..]).value;
      Assoc(a, b, rest);
      RowDecodes(ts, rows[0], b + rest);
      RowsDecode(ts, rows[1..], rest);
    }
  }

  lemma MaybeDecodes(width: nat, v: Value, rest: Bytes)
    requires v.Absent? || v.Present?
    ensures ReadValue(Maybe(width), EncodeValue(Maybe(width), v).value + rest) == Read(WrapValue(Maybe(width), v), rest)
  {
    hide Le, Wrap, ReadUInt;
    if v.Present? {
      Assoc([1], Le(width, v.n), rest);
      assert ([1] + (Le(width, v.n) + rest))[1..] == Le(width, v.n) + rest;
      ReadUIntLe(width, v.n, rest);
    } else {
      assert ([0] + rest)[1..] == rest;
    }
  }

  lemma AssetDecodes(v: Value, rest: Bytes)
    requires HasKind(BookAsset, v) && EncodeValue(BookAsset, v).Some?
    ensures ReadAsset(EncodeValue(BookAsset, v).value + rest) == Read(v, rest)
  {
    var b := EncodeValue(BookAsset, v).value + rest;
    if v.Issued? {
      assert b[1..21] == v.issuer && b[21..41] == v.currency && b[41..] == rest;
    } else {
      assert b[1..] == rest;
    }
  }

  lemma TableDecodes(ts: seq<Column>, rows: seq<seq<Cell>>, rest: Bytes)
    requires HasRows(ts, rows) && |rows| < TWO32 && RowsFit(ts, rows) && EncodeRows(ts, rows).Some?
    ensures ReadTable(ts, Le(4, |rows|) + EncodeRows(ts, rows).value + rest) == Read(Rows(WrapRows(ts, rows)), rest)
  {
    hide Le, Wrap, ReadUInt, EncodeRows, ReadRows, WrapRows, RowsFit;
    Assoc(Le(4, |rows|), EncodeRows(ts, rows).value, rest);
    ReadUIntLe(4, |rows|, EncodeRows(ts, rows).value + rest);
    WrapSmall(|rows|);
    RowsDecode(ts, rows, rest);
  }

  lemma ValueDecodes(k: Kind, v: Value, rest: Bytes)
    requires HasKind(k, v) && Fits(k, v) && EncodeValue(k, v).Some?
    ensures ReadValue(k, EncodeValue(k, v).value + rest) == Read(WrapValue(k, v), rest)
  {
    hide Le, Wrap, EncodeCell, ReadCell, WrapCell, CellFits;
    hide EncodeRows, ReadTable, WrapRows, RowsFit, ReadMaybe, ReadAsset;
    match k
    case One(t) => CellDecodes(t, v.cell, rest);
    case Maybe(width) => MaybeDecodes(width, v, rest);
    case BookAsset => AssetDecodes(v, rest);
    case Table(ts) => TableDecodes(ts, v.rows, rest);
  }

  /** The decoder returns every field modulo its width, and what follows. */
  lemma {:induction false} Decodes(fs: seq<Field>, vs: seq<Value>, rest: Bytes)
    requires HasFields(fs, vs) && AllFit(fs, vs) && EncodeAll(fs, vs).Some?
    ensures ReadAll(fs, EncodeAll(fs, vs).value + rest) == Read(WrapAll(fs, vs), rest)
  {
    hide EncodeValue, ReadValue, WrapValue, HasKind, Fits;
    if |fs| == 0 {
      assert [] + rest == rest;
    } else {
      var a, b := EncodeValue(fs[0].kind, vs[0]).value, EncodeAll(fs[1..], vs[1..]).value;
      Assoc(a, b, rest);
      ValueDecodes(fs[0].kind, vs[0], b + rest);
      Decodes(fs[1..], vs[1..], rest);
    }
  }

  // ---------------------------------------------------------------------------
  // Values with the same wire form
  // ---------------------------------------------------------------------------

  lemma CellWrapped(t: Column, c: Cell)
    requires HasColumn(t, c)
    ensures HasColumn(t, WrapCell(t, c)) && EncodeCell(t, WrapCell(t, c)) == EncodeCell(t, c)
  {
    if t.UInt? {
      LeWrapped(t.width, c.n);
    }
  }

  lemma {:induction false} RowWrapped(ts: seq<Column>, row: seq<Cell>)
    requires HasColumns(ts, row)
    ensures HasColumns(ts, WrapRow(ts, row)) && EncodeRow(ts, WrapRow(ts, row)) == EncodeRow(ts, row)
  {
    hide EncodeCell, WrapCell;
    if |ts| > 0 {
      CellWrapped(ts[0], row[0]);
      RowWrapped(ts[1..], row[1..]);
      assert WrapRow(ts, row)[1..] == WrapRow(ts[1..], row[1..]);
    }
  }

  lemma {:induction false} RowsWrapped(ts: seq<Column>, rows: seq<seq<Cell>>)
    requires HasRows(ts, rows)
    ensures HasRows(ts, WrapRows(ts, rows)) && EncodeRows(ts, WrapRows(ts, rows)) == EncodeRows(ts, rows)
    ensures |WrapRows(ts, rows)| == |rows|
  {
    hide EncodeRow, WrapRow, HasColumns;
    if |rows| > 0 {
      RowWrapped(ts, rows[0]);
      RowsWrapped(ts, rows[1..]);
      assert WrapRows(ts, rows)[1..] == WrapRows(ts, rows[1..]);
    }
  }

  lemma ValueWrapped(k: Kind, v: Value)
    requires HasKind(k, v)
    ensures HasKind(k, WrapValue(k, v)) && EncodeValue(k, WrapValue(k, v)) == EncodeValue(k, v)
  {
    hide EncodeCell, WrapCell, HasColumn, EncodeRows, WrapRows, HasRows, Le, Wrap;
    match k
    case One(t) => CellWrapped(t, v.cell);
    case Maybe(width) => if v.Present? { LeWrapped(width, v.n); }
    case BookAsset =>
    case Table(ts) => RowsWrapped(ts, v.rows);
  }

  lemma {:induction false} AllWrapped(fs: seq<Field>, vs: seq<Value>)
    requires HasFields(fs, vs)
    ensures HasFields(fs, WrapAll(fs, vs)) && EncodeAll(fs, WrapAll(fs, vs)) == EncodeAll(fs, vs)
  {
    hide EncodeValue, WrapValue, HasKind;
    if |fs| > 0 {
      ValueWrapped(fs[0].kind, vs[0]);
      AllWrapped(fs[1..], vs[1..]);
      assert WrapAll(fs, vs)[1..] == WrapAll(fs[1..], vs[1..]);
    }
  }

  /** Two field lists are written alike exactly when every field agrees modulo its width. */
  lemma EncodesAlikeIff(fs: seq<Field>, vs: seq<Value>, ws: seq<Value>)
    requires HasFields(fs, vs) && HasFields(fs, ws) && AllFit(fs, vs) && AllFit(fs, ws)
    requires EncodeAll(fs, vs).Some? && EncodeAll(fs, ws).Some?
    ensures EncodeAll(fs, vs) == EncodeAll(fs, ws) <==> WrapAll(fs, vs) == WrapAll(fs, ws)
  {
    hide EncodeAll, ReadAll, WrapAll, HasFields, AllFit;
    Decodes(fs, vs, []);
    Decodes(fs, ws, []);
    AllWrapped(fs, vs);
    AllWrapped(fs, ws);
  }

  // In-range values are unchanged on the wire

  predicate CellInRange(t: Column, c: Cell) { t.UInt? && c.Num? ==> 0 <= c.n < Pow256(t.width) }

  predicate RowInRange(ts: seq<Column>, row: seq<Cell>)
    requires |ts| == |row|
  {
    |ts| == 0 || (CellInRange(ts[0], row[0]) && RowInRange(ts[1..], row[1..]))
  }

  predicate RowsInRange(ts: seq<Column>, rows: seq<seq<Cell>>)
    requires HasRows(ts, rows)
  {
    |rows| == 0 || (RowInRange(ts, rows[0]) && RowsInRange(ts, rows[1..]))
  }

  predicate InRange(k: Kind, v: Value)
    requires HasKind(k, v)
  {
    match k
    case One(t) => CellInRange(t, v.cell)
    case Maybe(width) => v.Present? ==> 0 <= v.n < Pow256(width)
    case BookAsset => true
    case Table(ts) => RowsInRange(ts, v.rows)
  }

  predicate AllInRange(fs: seq<Field>, vs: seq<Value>)
    requires HasFields(fs, vs)
  {
    |fs| == 0 || (InRange(fs[0].kind, vs[0]) && AllInRange(fs[1..], vs[1..]))
  }

  /** The least significant byte comes first. */
  lemma {:induction false} LeastFirst(width: nat, n: int)
    requires width > 0
    ensures |Le(width, n)| == width && Le(width, n)[0] == n % 256
    ensures 0 <= n < 256 ==> forall k :: 1 <= k < width ==> Le(width, n)[k] == 0
  {
    if width > 1 {
      LeastFirst(width - 1, n / 256);
    }
  }

  /** Wrapping keeps the number modulo 256 to the width. */
  lemma {:induction false} WrapRemainder(width: nat, n: int) returns (k: int)
    ensures 0 <= Wrap(width, n) < Pow256(width)
    ensures n == k * Pow256(width) + Wrap(width, n)
  {
    if width == 0 {
      k := n;
    } else {
      var p, low := Pow256(width - 1), Wrap(width - 1, n / 256);
      k := WrapRemainder(width - 1, n / 256);
      assert n == 256 * (k * p + low) + n % 256;
      Scaled(k, p);
    }
  }

  lemma Scaled(k: int, p: int)
    ensures 256 * (k * p) == k * (256 * p)
  {
  }

  lemma WrapInRange(width: nat, n: int)
    ensures Wrap(width, n) == n <==> 0 <= n < Pow256(width)
  {
    hide Wrap, Pow256;
    var k := WrapRemainder(width, n);
    if 0 <= n < Pow256(width) {
      NoMultiple(k, Pow256(width), n, Wrap(width, n));
    }
  }

  lemma NoMultiple(k: int, p: int, n: int, r: int)
    requires n == k * p + r && 0 <= n < p && 0 <= r < p
    ensures n == r
  {
    assert k > 0 ==> k * p >= p;
    assert k < 0 ==> k * p <= -p;
  }

  lemma {:induction false} RowUnchanged(ts: seq<Column>, row: seq<Cell>)
    requires |ts| == |row|
    ensures WrapRow(ts, row) == row <==> RowInRange(ts, row)
  {
    if |ts| > 0 {
      RowUnchanged(ts[1..], row[1..]);
      if ts[0].UInt? && row[0].Num? {
        WrapInRange(ts[0].width, row[0].n);
      }
      Consed(WrapCell(ts[0], row[0]), WrapRow(ts[1..], row[1..]), row);
    }
  }

  lemma Consed<T>(head: T, tail: seq<T>, s: seq<T>)
    requires |s| > 0
    ensures [head] + tail == s <==> head == s[0] && tail == s[1..]
  {
    if [head] + tail == s {
      assert s[1..] == tail;
    }
  }

  lemma {:induction false} RowsUnchanged(ts: seq<Column>, rows: seq<seq<Cell>>)
    requires HasRows(ts, rows)
    ensures WrapRows(ts, rows) == rows <==> RowsInRange(ts, rows)
  {
    if |rows| > 0 {
      hide WrapRow, RowInRange;
      RowUnchanged(ts, rows[0]);
      RowsUnchanged(ts, rows[1..]);
      Consed(WrapRow(ts, rows[0]), WrapRows(ts, rows[1..]), rows);
    }
  }

  lemma ValueUnchanged(k: Kind, v: Value)
    requires HasKind(k, v)
    ensures WrapValue(k, v) == v <==> InRange(k, v)
  {
    hide Wrap, WrapRows, RowsInRange, Pow256;
    match k
    case One(t) => if t.UInt? { WrapInRange(t.width, v.cell.n); }
    case Maybe(width) => if v.Present? { WrapInRange(width, v.n); }
    case BookAsset =>
    case Table(ts) => RowsUnchanged(ts, v.rows);
  }

  /** Fields come back unchanged exactly when every integer is in the range of its width. */
  lemma {:induction false} AllUnchanged(fs: seq<Field>, vs: seq<Value>)
    requires HasFields(fs, vs)
    ensures WrapAll(fs, vs) == vs <==> AllInRange(fs, vs)
  {
    hide WrapValue, InRange, HasKind;
    if |fs| > 0 {
      ValueUnchanged(fs[0].kind, vs[0]);
      AllUnchanged(fs[1..], vs[1..]);
      Consed(WrapValue(fs[0].kind, vs[0]), WrapAll(fs[1..], vs[1..]), vs);
    }
  }

  // Values that fit their length prefixes

  predicate IsShort(c: Cell) { c.Raw? ==> |c.bytes| < 0x1_0000_0000 }

  ghost predicate HasShort(v: Value)
  {
    && (v.Plain? ==> IsShort(v.cell))
    && (v.Rows? ==> |v.rows| < 0x1_0000_0000)
    && (v.Rows? ==> forall i :: 0 <= i < |v.rows| ==> AllShort(v.rows[i]))
  }

  ghost predicate AllShort(row: seq<Cell>) { forall i :: 0 <= i < |row| ==> IsShort(row[i]) }

  lemma {:induction false} RowShort(ts: seq<Column>, row: seq<Cell>)
    requires |ts| == |row| && AllShort(row)
    ensures RowFits(ts, row)
  {
    if |ts| > 0 {
      RowShort(ts[1..], row[1..]);
    }
  }

  lemma {:induction false} RowsShort(ts: seq<Column>, rows: seq<seq<Cell>>)
    requires HasRows(ts, rows) && forall i :: 0 <= i < |rows| ==> AllShort(rows[i])
    ensures RowsFit(ts, rows)
  {
    if |rows| > 0 {
      RowShort(ts, rows[0]);
      RowsShort(ts, rows[1..]);
    }
  }

  /** Fields fit whenever byte strings and tables are shorter than 2^32. */
  lemma {:induction false} ShortFits(fs: seq<Field>, vs: seq<Value>)
    requires HasFields(fs, vs) && forall i :: 0 <= i < |vs| ==> HasShort(vs[i])
    ensures AllFit(fs, vs)
  {
    if |fs| > 0 {
      assert HasShort(vs[0]) && HasKind(fs[0].kind, vs[0]);
      if vs[0].Rows? {
        RowsShort(fs[0].kind.columns, vs[0].rows);
      }
      ShortFits(fs[1..], vs[1..]);
    }
  }
}
