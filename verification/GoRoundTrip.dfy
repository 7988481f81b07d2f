/** Decoding undoes encoding, wherever the bytes stand. */
module GoRoundTrip {
  import opened Options
  import opened GoValues
  import opened GoCodec

  /** The bytes `b` stand in `data` at offset `index`. */
  predicate Holds(data: seq<byte>, index: nat, b: seq<byte>) {
    index + |b| <= |data| && data[index..index + |b|] == b
  }

  lemma HoldsSplit(data: seq<byte>, index: nat, a: seq<byte>, b: seq<byte>)
    requires Holds(data, index, a + b)
    ensures Holds(data, index, a) && Holds(data, index + |a|, b)
  {
    var d := data[index..index + |a + b|];
    assert d[..|a|] == a && d[|a|..] == b;
    assert data[index..index + |a|] == d[..|a|];
    assert data[index + |a|..index + |a| + |b|] == d[|a|..];
  }

  /** No slice of the value, byte slices apart, is longer than the decoder's limit. */
  predicate Fits(c: Context, limit: nat, t: Type, v: Value)
    requires Known(c, t) && Typed(c, t, v)
    decreases v, 1, 0
  {
    match Under(c, t)
    case Slice(e) => IsByte(c, e) || (|v.items| <= limit && ItemsFit(c, limit, e, v, |v.items|))
    case Ptr(e) => v.NilV? || Fits(c, limit, e, v.target)
    case Struct(fs) => FieldsFit(c, limit, fs, v, |fs|)
    case _ => true
  }

  predicate ItemsFit(c: Context, limit: nat, e: Type, v: Value, k: nat)
    requires Known(c, e) && v.ListV? && k <= |v.items| && AllTyped(c, e, v)
    decreases v, 0, k
  {
    k == 0 || (ItemsFit(c, limit, e, v, k - 1) && Fits(c, limit, e, v.items[k - 1]))
  }

  predicate FieldsFit(c: Context, limit: nat, fs: seq<Type>, v: Value, k: nat)
    requires Known(c, Struct(fs)) && v.ListV? && |v.items| == |fs| && k <= |fs|
    requires FieldsTyped(c, fs, v)
    decreases v, 0, k
  {
    k == 0 || (FieldsFit(c, limit, fs, v, k - 1) && Fits(c, limit, fs[k - 1], v.items[k - 1]))
  }

  /** What decoding is to return when the encoding is followed by anything. */
  function Expected<T>(fits: bool, value: T, next: nat): Decoded<T> {
    if fits then Ok(value, next) else Err(SliceTooLong)
  }

  // ---------------------------------------------------------------------------------------
  // Leaves
  // ---------------------------------------------------------------------------------------

  lemma LengthDecodes(c: Context, n: nat, data: seq<byte>, index: nat)
    requires Valid(c) && n <= c.maxInt && Holds(data, index, LittleEndian(n, 8))
    ensures DecodeLength(c, data, index) == Ok(n, index + 8)
  {
    WidthModulus(W64);
    LittleEndianRoundTrip(n, 8);
  }

  lemma BoolDecodes(c: Context, limit: nat, t: Type, v: Value, data: seq<byte>, index: nat)
    requires Known(c, t) && Typed(c, t, v) && Under(c, t).Bool?
    requires Holds(data, index, Encode(c, t, v).value)
    ensures Decode(c, limit, t, data, index) == Ok(v, index + 1)
  {
    assert data[index..index + 1][0] == data[index];
  }

  lemma NumDecodes(c: Context, limit: nat, t: Type, v: Value, data: seq<byte>, index: nat)
    requires Known(c, t) && Typed(c, t, v) && Under(c, t).Num?
    requires Holds(data, index, Encode(c, t, v).value)
    ensures Decode(c, limit, t, data, index) == Ok(v, index + |Encode(c, t, v).value|)
  {
    NumRoundTrip(Under(c, t).width, Under(c, t).signed, v.n);
  }

  lemma StringDecodes(c: Context, limit: nat, t: Type, v: Value, data: seq<byte>, index: nat)
    requires Known(c, t) && Typed(c, t, v) && Under(c, t).String?
    requires Holds(data, index, Encode(c, t, v).value)
    ensures Decode(c, limit, t, data, index) == Ok(v, index + |Encode(c, t, v).value|)
  {
    HoldsSplit(data, index, LittleEndian(|v.text|, 8), v.text);
    LengthDecodes(c, |v.text|, data, index);
  }

  // ---------------------------------------------------------------------------------------
  // Bytes: encoded one by one or at once, decoded one by one or at once
  // ---------------------------------------------------------------------------------------

  lemma {:induction false} ByteItemsEncode(c: Context, e: Type, v: Value, k: nat)
    requires Known(c, e) && v.ListV? && k <= |v.items| && AllTyped(c, e, v) && IsByte(c, e)
    ensures ByteItems(v.items[..k])
    ensures EncodeItems(c, e, v, k) == Some(RawBytes(v.items[..k]))
  {
    TypedBytes(c, e, v);
    if k > 0 {
      ByteItemsEncode(c, e, v, k - 1);
      assert v.items[..k][..k - 1] == v.items[..k - 1];
      assert Typed(c, e, v.items[k - 1]);
      ByteNum(v.items[k - 1].n);
    }
  }

  lemma {:induction false} RawBytesValues(items: seq<Value>)
    requires ByteItems(items)
    ensures ByteValues(RawBytes(items)) == items
  {
    if items != [] {
      var k := |items| - 1;
      RawBytesValues(items[..k]);
      assert items == items[..k] + [items[k]];
    }
  }

  lemma {:induction false} ByteItemsDecode(c: Context, limit: nat, e: Type, items: seq<Value>, data: seq<byte>,
                                           index: nat)
    requires Known(c, e) && IsByte(c, e) && ByteItems(items)
    requires Holds(data, index, RawBytes(items))
    ensures DecodeItems(c, limit, e, |items|, data, index) == Ok(items, index + |items|)
  {
    if items != [] {
      var k := |items| - 1;
      HoldsSplit(data, index, RawBytes(items[..k]), [items[k].n]);
      ByteItemsDecode(c, limit, e, items[..k], data, index);
      ByteNum(items[k].n);
      NumRoundTrip(W8, false, items[k].n);
      assert items == items[..k] + [items[k]];
    }
  }

  lemma ByteSliceDecodes(c: Context, limit: nat, t: Type, v: Value, data: seq<byte>, index: nat)
    requires Known(c, t) && Typed(c, t, v) && Under(c, t).Slice? && IsByte(c, Under(c, t).elem)
    ensures Encode(c, t, v).Some?
    ensures Holds(data, index, Encode(c, t, v).value) ==>
      Decode(c, limit, t, data, index) == Ok(v, index + |Encode(c, t, v).value|)
  {
    hide Decode, Encode, Holds;
    ByteSliceEncodes(c, t, v);
    if Holds(data, index, Encode(c, t, v).value) {
      HoldsSplit(data, index, LittleEndian(|v.items|, 8), RawBytes(v.items));
      LengthDecodes(c, |v.items|, data, index);
      RawBytesValues(v.items);
      ByteSliceReads(c, limit, t, data, index, |v.items|, RawBytes(v.items));
    }
  }

  lemma ByteSliceEncodes(c: Context, t: Type, v: Value)
    requires Known(c, t) && Typed(c, t, v) && Under(c, t).Slice? && IsByte(c, Under(c, t).elem)
    ensures ByteItems(v.items) && |v.items| <= c.maxInt
    ensures Encode(c, t, v) == Some(LittleEndian(|v.items|, 8) + RawBytes(v.items))
  {
    ByteItemsEncode(c, Under(c, t).elem, v, |v.items|);
    assert v.items[..|v.items|] == v.items;
  }

  lemma ByteSliceReads(c: Context, limit: nat, t: Type, data: seq<byte>, index: nat, n: nat, raw: seq<byte>)
    requires Known(c, t) && Under(c, t).Slice? && IsByte(c, Under(c, t).elem) && index + 8 <= |data|
    requires DecodeLength(c, data, index) == Ok(n, index + 8) && n == |raw| && Holds(data, index + 8, raw)
    ensures Decode(c, limit, t, data, index) == Ok(ListV(ByteValues(raw)), index + 8 + n)
  {
  }

  lemma ByteArrayDecodes(c: Context, limit: nat, t: Type, v: Value, data: seq<byte>, index: nat)
    requires Known(c, t) && Typed(c, t, v) && Under(c, t).Array? && IsByte(c, Under(c, t).elem)
    requires Holds(data, index, Encode(c, t, v).value)
    ensures Decode(c, limit, t, data, index) == Ok(v, index + |Encode(c, t, v).value|)
  {
    TypedBytes(c, Under(c, t).elem, v);
    ByteItemsDecode(c, limit, Under(c, t).elem, v.items, data, index);
  }

  /** Everything that is decoded without decoding a part first. */
  lemma LeafDecodes(c: Context, limit: nat, t: Type, v: Value, data: seq<byte>, index: nat)
    requires Known(c, t) && Typed(c, t, v) && Encode(c, t, v).Some?
    requires !Under(c, t).Struct? && !v.RefV?
    requires Under(c, t).Slice? ==> IsByte(c, Under(c, t).elem)
    requires Holds(data, index, Encode(c, t, v).value)
    ensures Decode(c, limit, t, data, index) == Ok(v, index + |Encode(c, t, v).value|) && Fits(c, limit, t, v)
  {
    var u := Under(c, t);
    if u.Bool? { BoolDecodes(c, limit, t, v, data, index); }
    else if u.Num? { NumDecodes(c, limit, t, v, data, index); }
    else if u.String? { StringDecodes(c, limit, t, v, data, index); }
    else if u.Slice? { ByteSliceDecodes(c, limit, t, v, data, index); }
    else if u.Array? { ByteArrayDecodes(c, limit, t, v, data, index); }
    else { assert data[index..index + 1][0] == data[index]; }
  }

  // ---------------------------------------------------------------------------------------
  // The parts of a value, and the value from its decoded parts
  // ---------------------------------------------------------------------------------------

  lemma SliceBody(c: Context, t: Type, v: Value, data: seq<byte>, index: nat)
    requires Known(c, t) && Typed(c, t, v) && Encode(c, t, v).Some? && Under(c, t).Slice?
    requires Holds(data, index, Encode(c, t, v).value)
    ensures var body := EncodeItems(c, Under(c, t).elem, v, |v.items|);
      && body.Some? && Holds(data, index + 8, body.value)
      && |Encode(c, t, v).value| == 8 + |body.value|
      && DecodeLength(c, data, index) == Ok(|v.items|, index + 8)
  {
    var body := EncodeItems(c, Under(c, t).elem, v, |v.items|);
    HoldsSplit(data, index, LittleEndian(|v.items|, 8), body.value);
    LengthDecodes(c, |v.items|, data, index);
  }

  lemma SliceDecodes(c: Context, limit: nat, t: Type, v: Value, data: seq<byte>, index: nat)
    requires Known(c, t) && Typed(c, t, v) && Encode(c, t, v).Some? && Under(c, t).Slice?
    requires !IsByte(c, Under(c, t).elem) && index + 8 <= |data|
    requires DecodeLength(c, data, index) == Ok(|v.items|, index + 8)
    requires var e, n := Under(c, t).elem, |v.items|;
      DecodeItems(c, limit, e, n, data, index + 8)
      == Expected(ItemsFit(c, limit, e, v, n), v.items[..n], index + |Encode(c, t, v).value|)
    ensures Decode(c, limit, t, data, index)
         == Expected(Fits(c, limit, t, v), v, index + |Encode(c, t, v).value|)
  {
    assert v.items[..|v.items|] == v.items;
  }

  lemma RefBody(c: Context, t: Type, v: Value, data: seq<byte>, index: nat)
    requires Known(c, t) && Typed(c, t, v) && Encode(c, t, v).Some? && Under(c, t).Ptr? && v.RefV?
    requires Holds(data, index, Encode(c, t, v).value)
    ensures var d := Encode(c, Under(c, t).elem, v.target);
      && d.Some? && Holds(data, index + 1, d.value) && |Encode(c, t, v).value| == 1 + |d.value|
      && data[index] == 1
  {
    var d := Encode(c, Under(c, t).elem, v.target);
    HoldsSplit(data, index, [1], d.value);
    assert data[index..index + 1][0] == data[index];
  }

  lemma RefDecodes(c: Context, limit: nat, t: Type, v: Value, data: seq<byte>, index: nat)
    requires Known(c, t) && Typed(c, t, v) && Encode(c, t, v).Some? && Under(c, t).Ptr? && v.RefV?
    requires index + 1 <= |data| && data[index] == 1
    requires Decode(c, limit, Under(c, t).elem, data, index + 1)
          == Expected(Fits(c, limit, Under(c, t).elem, v.target), v.target, index + |Encode(c, t, v).value|)
    ensures Decode(c, limit, t, data, index)
         == Expected(Fits(c, limit, t, v), v, index + |Encode(c, t, v).value|)
  {}

  lemma StructBody(c: Context, t: Type, v: Value)
    requires Known(c, t) && Typed(c, t, v) && Under(c, t).Struct?
    ensures Encode(c, t, v) == EncodeFields(c, Under(c, t).fields, v, |v.items|)
  {}

  lemma StructDecodes(c: Context, limit: nat, t: Type, v: Value, data: seq<byte>, index: nat)
    requires Known(c, t) && Typed(c, t, v) && Encode(c, t, v).Some? && Under(c, t).Struct?
    requires index <= |data|
    requires DecodeFields(c, limit, Under(c, t), |v.items|, data, index)
          == Expected(FieldsFit(c, limit, Under(c, t).fields, v, |v.items|), v.items[..|v.items|],
                      index + |Encode(c, t, v).value|)
    ensures Decode(c, limit, t, data, index)
         == Expected(Fits(c, limit, t, v), v, index + |Encode(c, t, v).value|)
  {
    assert v.items[..|v.items|] == v.items;
  }

  // ---------------------------------------------------------------------------------------
  // The round trip
  // ---------------------------------------------------------------------------------------

  /** Decoding an encoding returns the value and the offset behind it, if and only if every
      slice keeps to the limit; otherwise it reports the slice. */
  lemma {:induction false} RoundTrip(c: Context, limit: nat, t: Type, v: Value, data: seq<byte>, index: nat)
    requires Known(c, t) && Typed(c, t, v) && Encode(c, t, v).Some?
    requires Holds(data, index, Encode(c, t, v).value)
    ensures Decode(c, limit, t, data, index)
         == Expected(Fits(c, limit, t, v), v, index + |Encode(c, t, v).value|)
    decreases v, 1, 0
  {
    hide Encode, Decode, Fits;
    var u := Under(c, t);
    if u.Slice? && !IsByte(c, u.elem) {
      var e, n := u.elem, |v.items|;
      SliceBody(c, t, v, data, index);
      ItemsRoundTrip(c, limit, e, v, n, data, index + 8);
      SliceDecodes(c, limit, t, v, data, index);
    } else if u.Ptr? && v.RefV? {
      RefBody(c, t, v, data, index);
      RoundTrip(c, limit, u.elem, v.target, data, index + 1);
      RefDecodes(c, limit, t, v, data, index);
    } else if u.Struct? {
      StructBody(c, t, v);
      FieldsRoundTrip(c, limit, u, v, |u.fields|, data, index);
      StructDecodes(c, limit, t, v, data, index);
    } else {
      LeafDecodes(c, limit, t, v, data, index);
    }
  }

  lemma {:induction false} ItemsRoundTrip(c: Context, limit: nat, e: Type, v: Value, k: nat, data: seq<byte>,
                                          index: nat)
    requires Known(c, e) && v.ListV? && k <= |v.items| && AllTyped(c, e, v)
    requires EncodeItems(c, e, v, k).Some? && Holds(data, index, EncodeItems(c, e, v, k).value)
    ensures DecodeItems(c, limit, e, k, data, index)
         == Expected(ItemsFit(c, limit, e, v, k), v.items[..k], index + |EncodeItems(c, e, v, k).value|)
    decreases v, 0, k
  {
    hide Encode, Decode, Fits, Typed, Valid, Holds;
    if k > 0 {
      var a, b := EncodeItems(c, e, v, k - 1).value, Encode(c, e, v.items[k - 1]).value;
      HoldsSplit(data, index, a, b);
      ItemsRoundTrip(c, limit, e, v, k - 1, data, index);
      RoundTrip(c, limit, e, v.items[k - 1], data, index + |a|);
      assert v.items[..k] == v.items[..k - 1] + [v.items[k - 1]];
    }
  }

  lemma {:induction false} FieldsRoundTrip(c: Context, limit: nat, t: Type, v: Value, k: nat,
                                           data: seq<byte>, index: nat)
    requires Known(c, t) && t.Struct? && v.ListV? && |v.items| == |t.fields| && k <= |t.fields|
    requires FieldsTyped(c, t.fields, v)
    requires EncodeFields(c, t.fields, v, k).Some?
    requires Holds(data, index, EncodeFields(c, t.fields, v, k).value)
    ensures DecodeFields(c, limit, t, k, data, index)
         == Expected(FieldsFit(c, limit, t.fields, v, k), v.items[..k],
                     index + |EncodeFields(c, t.fields, v, k).value|)
    decreases v, 0, k
  {
    hide Encode, Decode, Fits, Typed, Valid, Holds;
    if k > 0 {
      var fs := t.fields;
      var a, b := EncodeFields(c, fs, v, k - 1).value, Encode(c, fs[k - 1], v.items[k - 1]).value;
      HoldsSplit(data, index, a, b);
      FieldsRoundTrip(c, limit, t, v, k - 1, data, index);
      RoundTrip(c, limit, fs[k - 1], v.items[k - 1], data, index + |a|);
      assert v.items[..k] == v.items[..k - 1] + [v.items[k - 1]];
    }
  }

  // ---------------------------------------------------------------------------------------
  // Consequences
  // ---------------------------------------------------------------------------------------

  lemma {:induction false} NoLimitFits(c: Context, t: Type, v: Value)
    requires Known(c, t) && Typed(c, t, v)
    ensures Fits(c, c.maxInt, t, v)
    decreases v, 1, 0
  {
    var u := Under(c, t);
    if u.Slice? { NoLimitItems(c, u.elem, v, |v.items|); }
    else if u.Ptr? && v.RefV? { NoLimitFits(c, u.elem, v.target); }
    else if u.Struct? { NoLimitFields(c, u.fields, v, |v.items|); }
  }

  lemma {:induction false} NoLimitItems(c: Context, e: Type, v: Value, k: nat)
    requires Known(c, e) && v.ListV? && k <= |v.items| && AllTyped(c, e, v)
    ensures ItemsFit(c, c.maxInt, e, v, k)
    decreases v, 0, k
  {
    if k > 0 {
      NoLimitItems(c, e, v, k - 1);
      NoLimitFits(c, e, v.items[k - 1]);
    }
  }

  lemma {:induction false} NoLimitFields(c: Context, fs: seq<Type>, v: Value, k: nat)
    requires Known(c, Struct(fs)) && v.ListV? && |v.items| == |fs| && k <= |fs|
    requires FieldsTyped(c, fs, v)
    ensures FieldsFit(c, c.maxInt, fs, v, k)
    decreases v, 0, k
  {
    if k > 0 {
      NoLimitFields(c, fs, v, k - 1);
      NoLimitFits(c, fs[k - 1], v.items[k - 1]);
    }
  }

  /** Encodings of one type are prefix-free, and the encoding is injective, for all values,
      whatever their slices' lengths: a decoder without a limit tells them apart. */
  lemma PrefixFree(c: Context, t: Type, v: Value, w: Value, afterV: seq<byte>, afterW: seq<byte>)
    requires Known(c, t) && Typed(c, t, v) && Typed(c, t, w)
    requires Encode(c, t, v).Some? && Encode(c, t, w).Some?
    requires Encode(c, t, v).value + afterV == Encode(c, t, w).value + afterW
    ensures v == w && afterV == afterW
  {
    hide Encode, Decode, Fits, Typed;
    var a, b := Encode(c, t, v).value, Encode(c, t, w).value;
    var data := a + afterV;
    assert Holds(data, 0, a) && Holds(data, 0, b);
    RoundTrip(c, c.maxInt, t, v, data, 0);
    RoundTrip(c, c.maxInt, t, w, data, 0);
    NoLimitFits(c, t, v);
    NoLimitFits(c, t, w);
    assert afterV == data[|a|..];
  }
}
