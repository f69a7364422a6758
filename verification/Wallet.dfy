/** The wallet's in-place transaction writers equal the concatenating encoders. */
module Wallet {
  import opened Borsh
  import opened Bytes
  import opened Common
  import opened Lanes

  datatype Input = Input(txId: Bytes, index: int)
  datatype Output = Output(value: int, address: Bytes)
  datatype TxBody = TxBody(version: int, inputs: seq<Input>, outputs: seq<Output>, nonce: int)

  // ---------------------------------------------------------------------------
  // The concatenating form
  // ---------------------------------------------------------------------------

  const INPUT_COLUMNS := [Fixed(32), UInt(4)]
  const OUTPUT_COLUMNS := [UInt(8), Fixed(20)]

  function InputRow(x: Input): seq<Cell> { [Raw(x.txId), Num(x.index)] }

  function OutputRow(x: Output): seq<Cell> { [Num(x.value), Raw(x.address)] }

  function InputRows(xs: seq<Input>): seq<seq<Cell>> { seq(|xs|, i requires 0 <= i < |xs| => InputRow(xs[i])) }

  function OutputRows(xs: seq<Output>): seq<seq<Cell>> { seq(|xs|, i requires 0 <= i < |xs| => OutputRow(xs[i])) }

  /** The fields of the transfer lane. */
  function Values(b: TxBody): seq<Value>
  {
    [Plain(Num(b.version)), Rows(InputRows(b.inputs)), Rows(OutputRows(b.outputs)), Plain(Num(b.nonce))]
  }

  predicate GoodInputs(xs: seq<Input>) { forall i :: 0 <= i < |xs| ==> |xs[i].txId| == 32 }

  predicate GoodOutputs(xs: seq<Output>) { forall i :: 0 <= i < |xs| ==> |xs[i].address| == 20 }

  predicate Good(b: TxBody) { GoodInputs(b.inputs) && GoodOutputs(b.outputs) }

  function InputBytes(xs: seq<Input>): Bytes
  {
    if |xs| == 0 then [] else InputBytes(xs[..|xs| - 1]) + xs[|xs| - 1].txId + Le(4, xs[|xs| - 1].index)
  }

  function OutputBytes(xs: seq<Output>): Bytes
  {
    if |xs| == 0 then [] else OutputBytes(xs[..|xs| - 1]) + Le(8, xs[|xs| - 1].value) + xs[|xs| - 1].address
  }

  function BodyBytes(b: TxBody): Bytes
  {
    Le(4, b.version) + Le(4, |b.inputs|) + InputBytes(b.inputs)
    + Le(4, |b.outputs|) + OutputBytes(b.outputs) + Le(8, b.nonce)
  }

  // ---------------------------------------------------------------------------
  // Writers
  // ---------------------------------------------------------------------------

  method SetBytes(buf: array<Byte>, bytes: Bytes, o: nat) returns (end: nat)
    requires o + |bytes| <= buf.Length
    modifies buf
    ensures end == o + |bytes| && buf[..end] == old(buf[..o]) + bytes
  {
    for i := 0 to |bytes|
      invariant buf[..o + i] == old(buf[..o]) + bytes[..i]
    {
      buf[o + i] := bytes[i];
    }
    return o + |bytes|;
  }

  /** Little-endian store of the low `width` bytes. */
  method WriteUInt(buf: array<Byte>, o: nat, width: nat, value: int) returns (end: nat)
    requires o + width <= buf.Length
    modifies buf
    ensures end == o + width && buf[..end] == old(buf[..o]) + Le(width, value)
  {
    LeRead(width, value);
    end := SetBytes(buf, Le(width, value), o);
  }

  method WriteInputs(buf: array<Byte>, start: nat, inputs: seq<Input>) returns (ok: bool, end: nat)
    requires start + 36 * |inputs| <= buf.Length
    modifies buf
    ensures ok == GoodInputs(inputs)
    ensures ok ==> end == start + 36 * |inputs| && buf[..end] == old(buf[..start]) + InputBytes(inputs)
  {
    hide Le;
    ghost var before := buf[..start];
    var o := start;
    for i := 0 to |inputs|
      invariant o == start + 36 * i && GoodInputs(inputs[..i])
      invariant buf[..o] == before + InputBytes(inputs[..i])
    {
      if |inputs[i].txId| != 32 { return false, o; }
      o := SetBytes(buf, inputs[i].txId, o);
      o := WriteUInt(buf, o, 4, inputs[i].index);
      assert inputs[..i + 1][..i] == inputs[..i];
    }
    assert inputs[..|inputs|] == inputs;
    return true, o;
  }

  method WriteOutputs(buf: array<Byte>, start: nat, outputs: seq<Output>) returns (ok: bool, end: nat)
    requires start + 28 * |outputs| <= buf.Length
    modifies buf
    ensures ok == GoodOutputs(outputs)
    ensures ok ==> end == start + 28 * |outputs| && buf[..end] == old(buf[..start]) + OutputBytes(outputs)
  {
    hide Le;
    ghost var before := buf[..start];
    var o := start;
    for i := 0 to |outputs|
      invariant o == start + 28 * i && GoodOutputs(outputs[..i])
      invariant buf[..o] == before + OutputBytes(outputs[..i])
    {
      if |outputs[i].address| != 20 { return false, o; }
      o := WriteUInt(buf, o, 8, outputs[i].value);
      o := SetBytes(buf, outputs[i].address, o);
      assert outputs[..i + 1][..i] == outputs[..i];
    }
    assert outputs[..|outputs|] == outputs;
    return true, o;
  }

  method BodySize(b: TxBody) returns (size: nat)
    ensures size == 20 + 36 * |b.inputs| + 28 * |b.outputs|
  {
    size := 4 + 4 + 4 + 8;
    for i := 0 to |b.inputs|
      invariant size == 20 + 36 * i
    {
      size := size + 32 + 4;
    }
    for i := 0 to |b.outputs|
      invariant size == 20 + 36 * |b.inputs| + 28 * i
    {
      size := size + 8 + 20;
    }
  }

  /** Ends with the offset exactly at the precomputed size. */
  method EncodeTransactionBody(b: TxBody) returns (out: Option<array<Byte>>)
    ensures out.Some? <==> Good(b)
    ensures out.Some? ==> out.value[..] == BodyBytes(b)
  {
    hide Le, InputBytes, OutputBytes;
    var size := BodySize(b);
    var buf := new Byte[size];
    assert buf[..0] == [];
    var o := WriteUInt(buf, 0, 4, b.version);
    o := WriteUInt(buf, o, 4, |b.inputs|);
    var ok;
    ok, o := WriteInputs(buf, o, b.inputs);
    if !ok { return None; }
    o := WriteUInt(buf, o, 4, |b.outputs|);
    ok, o := WriteOutputs(buf, o, b.outputs);
    if !ok { return None; }
    o := WriteUInt(buf, o, 8, b.nonce);
    assert o == size && buf[..o] == buf[..];
    return Some(buf);
  }

  method EncodeSigningBytesBound(chainId: Bytes, genesis: Bytes, b: TxBody) returns (out: Option<array<Byte>>)
    ensures out.Some? <==> |genesis| == 32 && Good(b)
    ensures out.Some? ==>
              out.value[..] == EncodeVec(Ascii(DomainName(Transfer))) + EncodeVec(chainId) + genesis + BodyBytes(b)
  {
    hide Le, BodyBytes, DomainName, Ascii, Good;
    if |genesis| != 32 { return None; }
    var body := EncodeTransactionBody(b);
    if body.None? { return None; }
    var domain, bodyBytes := Ascii(DomainName(Transfer)), body.value[..];
    var size := 4 + |domain| + 4 + |chainId| + 32 + |bodyBytes|;
    var buf := new Byte[size];
    assert buf[..0] == [];
    var o := WriteUInt(buf, 0, 4, |domain|);
    o := SetBytes(buf, domain, o);
    o := WriteUInt(buf, o, 4, |chainId|);
    o := SetBytes(buf, chainId, o);
    o := SetBytes(buf, genesis, o);
    o := SetBytes(buf, bodyBytes, o);
    assert o == size && buf[..o] == buf[..];
    return Some(buf);
  }

  // ---------------------------------------------------------------------------
  // The concatenating form is the transfer lane
  // ---------------------------------------------------------------------------

  lemma InputRowsTyped(xs: seq<Input>)
    ensures HasRows(INPUT_COLUMNS, InputRows(xs)) && |InputRows(xs)| == |xs|
  {
  }

  lemma OutputRowsTyped(xs: seq<Output>)
    ensures HasRows(OUTPUT_COLUMNS, OutputRows(xs)) && |OutputRows(xs)| == |xs|
  {
  }

  lemma JoinAssoc(a: Option<Bytes>, b: Option<Bytes>, c: Option<Bytes>)
    ensures Join(Join(a, b), c) == Join(a, Join(b, c))
    ensures Join(Some([]), c) == c && Join(c, Some([])) == c
  {
    if a.Some? && b.Some? && c.Some? {
      Assoc(a.value, b.value, c.value);
    }
    if c.Some? {
      assert [] + c.value == c.value && c.value + [] == c.value;
    }
  }

  lemma {:induction false} RowsSnoc(ts: seq<Column>, rows: seq<seq<Cell>>, row: seq<Cell>)
    requires HasRows(ts, rows + [row])
    ensures HasRows(ts, rows) && HasColumns(ts, row)
    ensures EncodeRows(ts, rows + [row]) == Join(EncodeRows(ts, rows), EncodeRow(ts, row))
  {
    hide EncodeRow, HasColumns;
    JoinAssoc(None, None, EncodeRow(ts, (rows + [row])[|rows|]));
    assert forall i :: 0 <= i < |rows| ==> rows[i] == (rows + [row])[i];
    assert (rows + [row])[|rows|] == row;
    if |rows| == 0 {
      assert (rows + [row])[1..] == [];
    } else {
      assert (rows + [row])[1..] == rows[1..] + [row];
      RowsSnoc(ts, rows[1..], row);
      JoinAssoc(EncodeRow(ts, rows[0]), EncodeRows(ts, rows[1..]), EncodeRow(ts, row));
    }
  }

  lemma OneInput(x: Input)
    ensures HasColumns(INPUT_COLUMNS, InputRow(x))
    ensures EncodeRow(INPUT_COLUMNS, InputRow(x)) == if |x.txId| == 32 then Some(x.txId + Le(4, x.index)) else None
  {
    hide Le;
    var ts, row := INPUT_COLUMNS, InputRow(x);
    assert ts[1..] == [UInt(4)] && row[1..] == [Num(x.index)];
    assert [UInt(4)][1..] == [] && [Num(x.index)][1..] == [];
    assert EncodeRow([UInt(4)], [Num(x.index)]) == Some(Le(4, x.index) + []);
    assert Le(4, x.index) + [] == Le(4, x.index);
  }

  lemma OneOutput(x: Output)
    ensures HasColumns(OUTPUT_COLUMNS, OutputRow(x))
    ensures EncodeRow(OUTPUT_COLUMNS, OutputRow(x)) ==
            if |x.address| == 20 then Some(Le(8, x.value) + x.address) else None
  {
    hide Le;
    var ts, row := OUTPUT_COLUMNS, OutputRow(x);
    assert ts[1..] == [Fixed(20)] && row[1..] == [Raw(x.address)];
    assert [Fixed(20)][1..] == [] && [Raw(x.address)][1..] == [];
    assert EncodeRow([Fixed(20)], [Raw(x.address)]) == Join(EncodeCell(Fixed(20), Raw(x.address)), Some([]));
    assert x.address + [] == x.address;
  }

  lemma {:induction false} InputsEncode(xs: seq<Input>)
    ensures HasRows(INPUT_COLUMNS, InputRows(xs))
    ensures EncodeRows(INPUT_COLUMNS, InputRows(xs)) == if GoodInputs(xs) then Some(InputBytes(xs)) else None
  {
    hide Le, EncodeRow, HasColumns, InputRow;
    InputRowsTyped(xs);
    if |xs| > 0 {
      var front, x := xs[..|xs| - 1], xs[|xs| - 1];
      InputsEncode(front);
      OneInput(x);
      assert InputRows(xs) == InputRows(front) + [InputRow(x)];
      RowsSnoc(INPUT_COLUMNS, InputRows(front), InputRow(x));
      Assoc(InputBytes(front), x.txId, Le(4, x.index));
    }
  }

  lemma {:induction false} OutputsEncode(xs: seq<Output>)
    ensures HasRows(OUTPUT_COLUMNS, OutputRows(xs))
    ensures EncodeRows(OUTPUT_COLUMNS, OutputRows(xs)) == if GoodOutputs(xs) then Some(OutputBytes(xs)) else None
  {
    hide Le, EncodeRow, HasColumns, OutputRow;
    OutputRowsTyped(xs);
    if |xs| > 0 {
      var front, x := xs[..|xs| - 1], xs[|xs| - 1];
      OutputsEncode(front);
      OneOutput(x);
      assert OutputRows(xs) == OutputRows(front) + [OutputRow(x)];
      RowsSnoc(OUTPUT_COLUMNS, OutputRows(front), OutputRow(x));
      Assoc(OutputBytes(front), Le(8, x.value), x.address);
    }
  }

  lemma FourFields(fs: seq<Field>, vs: seq<Value>)
    requires |fs| == 4 && HasFields(fs, vs)
    ensures EncodeAll(fs, vs) ==
            Join(EncodeValue(fs[0].kind, vs[0]), Join(EncodeValue(fs[1].kind, vs[1]),
              Join(EncodeValue(fs[2].kind, vs[2]), EncodeValue(fs[3].kind, vs[3]))))
  {
    hide EncodeValue, HasKind;
    var f3, v3 := fs[3..], vs[3..];
    assert fs[1..][1..] == fs[2..] && vs[1..][1..] == vs[2..] && fs[2..][1..] == f3 && vs[2..][1..] == v3;
    assert EncodeAll(f3, v3) == Join(EncodeValue(f3[0].kind, v3[0]), EncodeAll(f3[1..], v3[1..]));
    JoinAssoc(None, None, EncodeValue(fs[3].kind, vs[3]));
    assert EncodeAll(f3[1..], v3[1..]) == Some([]);
    assert EncodeAll(fs[2..], vs[2..]) == Join(EncodeValue(fs[2].kind, vs[2]), EncodeAll(f3, v3));
    assert EncodeAll(fs[1..], vs[1..]) == Join(EncodeValue(fs[1].kind, vs[1]), EncodeAll(fs[2..], vs[2..]));
  }

  lemma ValuesTyped(b: TxBody)
    ensures HasFields(Schema(Transfer), Values(b))
  {
  }

  /** The concatenating encoder of the transfer lane yields these bytes, or throws on a bad length. */
  lemma BodyIsLane(b: TxBody)
    ensures HasFields(Schema(Transfer), Values(b))
    ensures Body(Transfer, Values(b)) == if Good(b) then Some(BodyBytes(b)) else None
  {
    hide Le, EncodeRows, InputRows, OutputRows, HasRows, InputBytes, OutputBytes, EncodeAll, GoodInputs, GoodOutputs;
    ValuesTyped(b);
    InputRowsTyped(b.inputs);
    OutputRowsTyped(b.outputs);
    InputsEncode(b.inputs);
    OutputsEncode(b.outputs);
    FourFields(Schema(Transfer), Values(b));
    if Good(b) {
      FlatSix(Le(4, b.version), Le(4, |b.inputs|), InputBytes(b.inputs),
              Le(4, |b.outputs|), OutputBytes(b.outputs), Le(8, b.nonce));
    }
  }

  lemma FlatSix(a: Bytes, b: Bytes, c: Bytes, d: Bytes, e: Bytes, f: Bytes)
    ensures a + ((b + c) + ((d + e) + f)) == a + b + c + d + e + f
    ensures [] + (a + b + c + d + e + f) + [] == a + b + c + d + e + f
  {
  }

  /** The in-place writer produces the preimage of the transfer lane, and throws exactly when that does. */
  method SignTransfer(chainId: Bytes, genesis: Bytes, b: TxBody) returns (out: Option<array<Byte>>)
    ensures WellTyped(Bound(Transfer, chainId, genesis, Values(b)))
    ensures var preimage := Preimage(Bound(Transfer, chainId, genesis, Values(b)));
            (out.Some? <==> preimage.Some?) && (out.Some? ==> out.value[..] == preimage.value)
  {
    hide BodyBytes, Good, Values, Schema, Body, HasFields, DomainName;
    BodyIsLane(b);
    out := EncodeSigningBytesBound(chainId, genesis, b);
  }

  /** The written body decodes back to its fields. */
  lemma BodyDecodes(b: TxBody, rest: Bytes)
    requires Good(b) && HasFields(Schema(Transfer), Values(b))
    requires AllFit(Schema(Transfer), Values(b)) && AllInRange(Schema(Transfer), Values(b))
    ensures ReadAll(Schema(Transfer), BodyBytes(b) + rest) == Read(Values(b), rest)
  {
    hide BodyBytes, Values, Schema, HasFields, AllFit, AllInRange, EncodeAll, ReadAll, WrapAll;
    BodyIsLane(b);
    Decodes(Schema(Transfer), Values(b), rest);
    AllUnchanged(Schema(Transfer), Values(b));
    var e := EncodeAll(Schema(Transfer), Values(b));
    assert BodyBytes(b) == [] + e.value + [];
    assert [] + e.value + [] == e.value;
  }

  // ---------------------------------------------------------------------------
  // Script pushes
  // ---------------------------------------------------------------------------

  function PushScriptData(data: Bytes): Option<Bytes>
  {
    if |data| == 0 then Some([0x00])
    else if |data| == 1 && 1 <= data[0] <= 16 then Some([0x51 + data[0] - 1])
    else if |data| > 80 then None
    else Some([0x01, |data|] + data)
  }

  function ReadPush(b: Bytes): Read<Bytes>
  {
    if |b| == 0 then Bad
    else if b[0] == 0x00 then Read([], b[1..])
    else if 0x51 <= b[0] <= 0x60 then Read([b[0] - 0x50], b[1..])
    else if b[0] == 0x01 && |b| >= 2 then Take(b[1], b[2..])
    else Bad
  }

  /** Up to 80 bytes can be pushed, and a push is read back from the front of any script. */
  lemma PushDecodes(data: Bytes, rest: Bytes)
    ensures PushScriptData(data).Some? <==> |data| <= 80
    ensures PushScriptData(data).Some? ==> ReadPush(PushScriptData(data).value + rest) == Read(data, rest)
  {
    if PushScriptData(data).Some? {
      var b := PushScriptData(data).value + rest;
      if |data| == 0 {
        assert b[1..] == rest;
      } else if |data| == 1 && 1 <= data[0] <= 16 {
        assert b[1..] == rest && data == [b[0] - 0x50];
      } else {
        assert b[2..] == data + rest;
        TakeAppend(data, rest);
      }
    }
  }

  /** A signature script, one push after another, splits in one way. */
  lemma ScriptSigInjective(sig: Bytes, key: Bytes, sig': Bytes, key': Bytes)
    requires PushScriptData(sig).Some? && PushScriptData(key).Some?
    requires PushScriptData(sig').Some? && PushScriptData(key').Some?
    requires PushScriptData(sig).value + PushScriptData(key).value ==
             PushScriptData(sig').value + PushScriptData(key').value
    ensures sig == sig' && key == key'
  {
    hide PushScriptData, ReadPush;
    PushDecodes(sig, PushScriptData(key).value);
    PushDecodes(sig', PushScriptData(key').value);
    PushDecodes(key, []);
    PushDecodes(key', []);
  }

  // ---------------------------------------------------------------------------
  // Concatenation
  // ---------------------------------------------------------------------------

  function Flatten(parts: seq<Bytes>): Bytes
  {
    if |parts| == 0 then [] else Flatten(parts[..|parts| - 1]) + parts[|parts| - 1]
  }

  /** `concat`: one buffer of the total size, filled by a moving offset. */
  method Concat(parts: seq<Bytes>) returns (out: array<Byte>)
    ensures out[..] == Flatten(parts)
  {
    var size := 0;
    for i := 0 to |parts|
      invariant size == |Flatten(parts[..i])|
    {
      size := size + |parts[i]|;
      assert parts[..i + 1][..i] == parts[..i];
    }
    assert parts[..|parts|] == parts;
    out := new Byte[size];
    var o := 0;
    for i := 0 to |parts|
      invariant o == |Flatten(parts[..i])| && o + |Flatten(parts)| - |Flatten(parts[..i])| == out.Length
      invariant o <= out.Length && out[..o] == Flatten(parts[..i])
    {
      FlattenGrows(parts, i + 1);
      assert parts[..i + 1][..i] == parts[..i];
      o := SetBytes(out, parts[i], o);
    }
    assert out[..o] == out[..];
  }

  lemma {:induction false} FlattenGrows(parts: seq<Bytes>, i: nat)
    requires i <= |parts|
    ensures |Flatten(parts[..i])| <= |Flatten(parts)|
    decreases |parts|
  {
    if i == |parts| {
      assert parts[..i] == parts;
    } else {
      var front := parts[..|parts| - 1];
      FlattenGrows(front, i);
      assert front[..i] == parts[..i];
    }
  }
}
