/** `serializeData`, `deserializeData` and `DeserializeData` as they run: recursion over the
    type with loops over items and fields, and an offset carried along. */
module GoRuntime {
  import opened Options
  import opened GoValues
  import opened GoCodec
  import opened GoRoundTrip
  import opened GoFormat
  import opened GoReading

  const MAX_SLICE_LEN: nat := 1_000_000

  method Serialize(c: Context, t: Type, v: Value) returns (r: Option<seq<byte>>)
    requires Known(c, t) && Typed(c, t, v)
    ensures r == Encode(c, t, v)
    decreases v, 1
  {
    var u := Under(c, t);
    match u
    case Bool =>
      if v.b { return Some([1]); }
      return Some([0]);
    case Num(w, s) =>
      return Some(EncodeNum(w, s, v.n));
    case Slice(e) =>
      var body := SerializeItems(c, e, v);
      if body.None? { return None; }
      return Some(LittleEndian(|v.items|, 8) + body.value);
    case Array(_, e) =>
      if !IsByte(c, e) { return None; }
      TypedBytes(c, e, v);
      var b := SerializeBytes(v.items);
      return Some(b);
    case String =>
      return Some(LittleEndian(|v.text|, 8) + v.text);
    case Ptr(e) =>
      if v.NilV? { return Some([0]); }
      var d := Serialize(c, e, v.target);
      if d.None? { return None; }
      return Some([1] + d.value);
    case Struct(fs) =>
      r := SerializeFields(c, fs, v);
    case Unsupported =>
      return None;
  }

  /** The loop over the items of a slice. */
  method SerializeItems(c: Context, e: Type, v: Value) returns (r: Option<seq<byte>>)
    requires Known(c, e) && v.ListV? && AllTyped(c, e, v)
    ensures r == EncodeItems(c, e, v, |v.items|)
    decreases v, 0
  {
    hide Encode, Valid;
    var output: seq<byte> := [];
    for i := 0 to |v.items|
      invariant EncodeItems(c, e, v, i) == Some(output)
    {
      var d := Serialize(c, e, v.items[i]);
      assert EncodeItems(c, e, v, i + 1) == Append(Some(output), d);
      if d.None? {
        EncodeItemsFails(c, e, v, i + 1, |v.items|);
        return None;
      }
      output := output + d.value;
    }
    return Some(output);
  }

  method SerializeBytes(items: seq<Value>) returns (b: seq<byte>)
    requires ByteItems(items)
    ensures b == RawBytes(items)
  {
    b := [];
    for i := 0 to |items|
      invariant b == RawBytes(items[..i])
    {
      assert items[..i + 1][..i] == items[..i];
      b := b + [items[i].n];
    }
    assert items[..|items|] == items;
  }

  method SerializeFields(c: Context, fs: seq<Type>, v: Value) returns (r: Option<seq<byte>>)
    requires Known(c, Struct(fs)) && v.ListV? && |v.items| == |fs| && FieldsTyped(c, fs, v)
    ensures r == EncodeFields(c, fs, v, |fs|)
    decreases v, 0
  {
    hide Encode, Valid;
    var data: seq<byte> := [];
    for i := 0 to |fs|
      invariant EncodeFields(c, fs, v, i) == Some(data)
    {
      var d := Serialize(c, fs[i], v.items[i]);
      assert EncodeFields(c, fs, v, i + 1) == Append(Some(data), d);
      if d.None? {
        EncodeFieldsFails(c, fs, v, i + 1, |fs|);
        return None;
      }
      data := data + d.value;
    }
    return Some(data);
  }

  lemma {:induction false} EncodeItemsFails(c: Context, e: Type, v: Value, i: nat, k: nat)
    requires Known(c, e) && v.ListV? && i <= k <= |v.items| && AllTyped(c, e, v)
    requires EncodeItems(c, e, v, i).None?
    ensures EncodeItems(c, e, v, k).None?
  {
    if i < k { EncodeItemsFails(c, e, v, i, k - 1); }
  }

  lemma {:induction false} EncodeFieldsFails(c: Context, fs: seq<Type>, v: Value, i: nat, k: nat)
    requires Known(c, Struct(fs)) && v.ListV? && |v.items| == |fs| && i <= k <= |fs|
    requires FieldsTyped(c, fs, v) && EncodeFields(c, fs, v, i).None?
    ensures EncodeFields(c, fs, v, k).None?
  {
    if i < k { EncodeFieldsFails(c, fs, v, i, k - 1); }
  }

  lemma {:induction false} DecodeItemsFails(c: Context, e: Type, i: nat, n: nat,
                                            data: seq<byte>, index: nat)
    requires Known(c, e) && index <= |data| && i <= n
    requires DecodeItems(c, MAX_SLICE_LEN, e, i, data, index).Err?
    ensures DecodeItems(c, MAX_SLICE_LEN, e, n, data, index)
         == DecodeItems(c, MAX_SLICE_LEN, e, i, data, index)
  {
    if i < n { DecodeItemsFails(c, e, i, n - 1, data, index); }
  }

  lemma {:induction false} DecodeFieldsFails(c: Context, t: Type, i: nat, k: nat,
                                             data: seq<byte>, index: nat)
    requires Known(c, t) && t.Struct? && index <= |data| && i <= k <= |t.fields|
    requires DecodeFields(c, MAX_SLICE_LEN, t, i, data, index).Err?
    ensures DecodeFields(c, MAX_SLICE_LEN, t, k, data, index)
         == DecodeFields(c, MAX_SLICE_LEN, t, i, data, index)
  {
    if i < k { DecodeFieldsFails(c, t, i, k - 1, data, index); }
  }

  /** The loop over the items of a slice or array. */
  method ReadItems(c: Context, e: Type, n: nat, data: seq<byte>, start: nat)
    returns (r: Decoded<seq<Value>>)
    requires Known(c, e) && start <= |data|
    ensures r == DecodeItems(c, MAX_SLICE_LEN, e, n, data, start)
    decreases |data| - start, Rank(e), e, 2
  {
    var items: seq<Value>, index := [], start;
    for i := 0 to n
      invariant start <= index <= |data|
      invariant DecodeItems(c, MAX_SLICE_LEN, e, i, data, start) == Ok(items, index)
    {
      var x := Deserialize(c, e, data, index);
      if x.Err? {
        DecodeItemsFails(c, e, i + 1, n, data, start);
        return Err(x.failure);
      }
      items, index := items + [x.value], x.next;
    }
    return Ok(items, index);
  }

  method ReadFields(c: Context, t: Type, data: seq<byte>, start: nat)
    returns (r: Decoded<seq<Value>>)
    requires Known(c, t) && t.Struct? && start <= |data|
    ensures r == DecodeFields(c, MAX_SLICE_LEN, t, |t.fields|, data, start)
    decreases |data| - start, Rank(t), t, 0
  {
    var items: seq<Value>, index := [], start;
    for i := 0 to |t.fields|
      invariant start <= index <= |data|
      invariant DecodeFields(c, MAX_SLICE_LEN, t, i, data, start) == Ok(items, index)
    {
      var x := Deserialize(c, t.fields[i], data, index);
      if x.Err? {
        DecodeFieldsFails(c, t, i + 1, |t.fields|, data, start);
        return Err(x.failure);
      }
      items, index := items + [x.value], x.next;
    }
    return Ok(items, index);
  }

  method Deserialize(c: Context, t: Type, data: seq<byte>, start: nat) returns (r: Decoded<Value>)
    requires Known(c, t) && start <= |data|
    ensures r == Decode(c, MAX_SLICE_LEN, t, data, start)
    decreases |data| - start, Rank(t), t, 1
  {
    var index := start;
    var u := Under(c, t);
    match u
    case Bool =>
      if 1 > |data| - index { return Err(NeedBytes); }
      return Ok(BoolV(data[index] == 1), index + 1);
    case Num(w, s) =>
      if w.Bytes() > |data| - index { return Err(NeedBytes); }
      return Ok(IntV(DecodeNum(w, s, data[index..index + w.Bytes()])), index + w.Bytes());
    case Slice(e) =>
      if 8 > |data| - index { return Err(NeedBytes); }
      var length := FromLittleEndian(data[index..index + 8]);
      index := index + 8;
      if length > c.maxInt { return Err(LengthExceedsInt); }
      if IsByte(c, e) {
        if length > |data| - index { return Err(LengthExceedsData); }
        return Ok(ListV(ByteValues(data[index..index + length])), index + length);
      }
      if length > MAX_SLICE_LEN { return Err(SliceTooLong); }
      var items := ReadItems(c, e, length, data, index);
      return List(items);
    case Array(n, e) =>
      var items := ReadItems(c, e, n, data, index);
      return List(items);
    case String =>
      if 8 > |data| - index { return Err(NeedBytes); }
      var length := FromLittleEndian(data[index..index + 8]);
      index := index + 8;
      if length > c.maxInt { return Err(LengthExceedsInt); }
      if length > |data| - index { return Err(LengthExceedsData); }
      return Ok(StringV(data[index..index + length]), index + length);
    case Ptr(e) =>
      if 1 > |data| - index { return Err(NeedBytes); }
      if data[index] == 0 { return Ok(NilV, index + 1); }
      var x := Deserialize(c, e, data, index + 1);
      if x.Err? { return x; }
      return Ok(RefV(x.value), x.next);
    case Struct(_) =>
      var items := ReadFields(c, u, data, index);
      return List(items);
    case Unsupported =>
      return Err(UnsupportedType);
  }

  /** `SerializeData`: exactly the bytes of the format, or none if the value has none. */
  method SerializeData(c: Context, t: Type, v: Value) returns (r: Option<seq<byte>>)
    requires Known(c, t) && Typed(c, t, v)
    ensures forall b :: r == Some(b) <==> Format(c, t, v, b)
  {
    hide Encode, Typed, Format;
    r := Serialize(c, t, v);
    forall b ensures r == Some(b) <==> Format(c, t, v, b) { EncodesFormat(c, t, v, b); }
  }

  /** `DeserializeData`: the whole input has to be consumed; `None` is its panic. */
  method DeserializeData(c: Context, t: Type, data: seq<byte>) returns (r: Option<Value>)
    requires Known(c, t)
    ensures forall v :: r == Some(v) <==> Reads(c, 1_000_000, t, data, 0, v, |data|)
    ensures forall v | Typed(c, t, v) && Encode(c, t, v) == Some(data) ::
      r == if Fits(c, MAX_SLICE_LEN, t, v) then Some(v) else None
  {
    hide Decode, Encode, Typed, Fits, Reads;
    var x := Deserialize(c, t, data, 0);
    r := if x.Ok? && x.next == |data| then Some(x.value) else None;
    forall v ensures r == Some(v) <==> Reads(c, 1_000_000, t, data, 0, v, |data|) {
      DecodesReads(c, MAX_SLICE_LEN, t, data, 0, v, |data|);
    }
    forall v | Typed(c, t, v) && Encode(c, t, v) == Some(data)
      ensures r == if Fits(c, MAX_SLICE_LEN, t, v) then Some(v) else None
    {
      RoundTrip(c, MAX_SLICE_LEN, t, v, data, 0);
    }
  }
}
