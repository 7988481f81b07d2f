/** What the decoder does on bytes that no encoder wrote. */
module GoDecoding {
  import opened GoValues
  import opened GoCodec
  import opened GoRoundTrip

  // ---------------------------------------------------------------------------------------
  // Decoding yields typed values within the limit
  // ---------------------------------------------------------------------------------------

  lemma {:induction false} DecodedTyped(c: Context, limit: nat, t: Type, data: seq<byte>, index: nat)
    requires Known(c, t) && index <= |data| && Decode(c, limit, t, data, index).Ok?
    ensures Typed(c, t, Decode(c, limit, t, data, index).value)
    decreases |data| - index, Rank(t), t, 1, 0
  {
    var u := Under(c, t);
    if u.Slice? {
      if IsByte(c, u.elem) { ByteSliceTyped(c, limit, t, data, index); }
      else {
        var len := DecodeLength(c, data, index);
        ItemsTyped(c, limit, u.elem, len.value, data, len.next);
      }
    } else if u.Array? {
      ItemsTyped(c, limit, u.elem, u.len, data, index);
    } else if u.Ptr? {
      if data[index] != 0 { DecodedTyped(c, limit, u.elem, data, index + 1); }
    } else if u.Struct? {
      FieldsDecodedTyped(c, limit, u, |u.fields|, data, index);
      ListTyped(c, u.fields, DecodeFields(c, limit, u, |u.fields|, data, index).value);
    }
  }

  lemma ByteSliceTyped(c: Context, limit: nat, t: Type, data: seq<byte>, index: nat)
    requires Known(c, t) && index <= |data| && Decode(c, limit, t, data, index).Ok?
    requires Under(c, t).Slice? && IsByte(c, Under(c, t).elem)
    ensures Typed(c, t, Decode(c, limit, t, data, index).value)
  {
    var v := Decode(c, limit, t, data, index).value;
    forall i | 0 <= i < |v.items| ensures Typed(c, Under(c, t).elem, v.items[i]) {}
  }

  predicate PrefixTyped(c: Context, fs: seq<Type>, items: seq<Value>) {
    |items| <= |fs| && forall i | 0 <= i < |items| :: Known(c, fs[i]) && Typed(c, fs[i], items[i])
  }

  lemma ListTyped(c: Context, fs: seq<Type>, items: seq<Value>)
    requires Known(c, Struct(fs)) && PrefixTyped(c, fs, items) && |items| == |fs|
    ensures FieldsTyped(c, fs, ListV(items))
  {}

  lemma {:induction false} ItemsTyped(c: Context, limit: nat, e: Type, n: nat, data: seq<byte>,
                                      index: nat)
    requires Known(c, e) && index <= |data| && DecodeItems(c, limit, e, n, data, index).Ok?
    ensures AllTyped(c, e, ListV(DecodeItems(c, limit, e, n, data, index).value))
    decreases |data| - index, Rank(e), e, 2, n
  {
    if n > 0 {
      var r := DecodeItems(c, limit, e, n - 1, data, index);
      ItemsTyped(c, limit, e, n - 1, data, index);
      DecodedTyped(c, limit, e, data, r.next);
      AllTypedSnoc(c, e, r.value, Decode(c, limit, e, data, r.next).value);
    }
  }

  lemma AllTypedSnoc(c: Context, e: Type, items: seq<Value>, x: Value)
    requires Known(c, e) && AllTyped(c, e, ListV(items)) && Typed(c, e, x)
    ensures AllTyped(c, e, ListV(items + [x]))
  {
    forall i | 0 <= i < |items| ensures Typed(c, e, items[i]) {
      assert Typed(c, e, ListV(items).items[i]);
    }
  }

  lemma {:induction false} FieldsDecodedTyped(c: Context, limit: nat, t: Type, k: nat,
                                              data: seq<byte>, index: nat)
    requires Known(c, t) && t.Struct? && k <= |t.fields| && index <= |data|
    requires DecodeFields(c, limit, t, k, data, index).Ok?
    ensures PrefixTyped(c, t.fields, DecodeFields(c, limit, t, k, data, index).value)
    decreases |data| - index, Rank(t), t, 0, k
  {
    if k > 0 {
      FieldsDecodedTyped(c, limit, t, k - 1, data, index);
      var r := DecodeFields(c, limit, t, k - 1, data, index);
      DecodedTyped(c, limit, t.fields[k - 1], data, r.next);
    }
  }

  // ---------------------------------------------------------------------------------------
  // Encoding what was decoded: same length, and it decodes to the same value
  // ---------------------------------------------------------------------------------------

  lemma {:induction false} ReencodedLength(c: Context, limit: nat, t: Type, v: Value,
                                           data: seq<byte>, index: nat, next: nat)
    requires Known(c, t) && index <= |data| && Typed(c, t, v)
    requires Decode(c, limit, t, data, index) == Ok(v, next)
    ensures Fits(c, limit, t, v) || Encode(c, t, v).None?
    ensures Encode(c, t, v).Some? ==> |Encode(c, t, v).value| == next - index
    decreases v, 1, 0
  {
    var u := Under(c, t);
    if u.Slice? {
      if IsByte(c, u.elem) { ByteItemsEncode(c, u.elem, v, |v.items|); }
      else {
        var len := DecodeLength(c, data, index);
        assert v.items[..|v.items|] == v.items;
        ReencodedItems(c, limit, u.elem, v, |v.items|, data, len.next, next);
      }
    } else if u.Array? {
      if IsByte(c, u.elem) { ByteArrayLength(c, limit, u.elem, u.len, data, index); }
    } else if u.Ptr? {
      if v.RefV? { ReencodedLength(c, limit, u.elem, v.target, data, index + 1, next); }
    } else if u.Struct? {
      assert v.items[..|v.items|] == v.items;
      ReencodedFields(c, limit, u, v, |v.items|, data, index, next);
    }
  }

  lemma {:induction false} ByteArrayLength(c: Context, limit: nat, e: Type, n: nat,
                                           data: seq<byte>, index: nat)
    requires Known(c, e) && index <= |data| && IsByte(c, e)
    requires DecodeItems(c, limit, e, n, data, index).Ok?
    ensures DecodeItems(c, limit, e, n, data, index).next == index + n
  {
    if n > 0 { ByteArrayLength(c, limit, e, n - 1, data, index); }
  }

  lemma {:induction false} ReencodedItems(c: Context, limit: nat, e: Type, v: Value, k: nat,
                                          data: seq<byte>, index: nat, next: nat)
    requires Known(c, e) && v.ListV? && k <= |v.items| && AllTyped(c, e, v) && index <= |data|
    requires DecodeItems(c, limit, e, k, data, index) == Ok(v.items[..k], next)
    ensures ItemsFit(c, limit, e, v, k) || EncodeItems(c, e, v, k).None?
    ensures EncodeItems(c, e, v, k).Some? ==> |EncodeItems(c, e, v, k).value| == next - index
    decreases v, 0, k
  {
    hide Encode, Decode, Fits, Typed, Valid;
    if k > 0 {
      var r := DecodeItems(c, limit, e, k - 1, data, index);
      assert v.items[..k] == v.items[..k - 1] + [v.items[k - 1]];
      assert r.value == v.items[..k][..k - 1] == v.items[..k - 1];
      assert Decode(c, limit, e, data, r.next).value == v.items[..k][k - 1];
      ReencodedItems(c, limit, e, v, k - 1, data, index, r.next);
      ReencodedLength(c, limit, e, v.items[k - 1], data, r.next, next);
    }
  }

  lemma {:induction false} ReencodedFields(c: Context, limit: nat, t: Type, v: Value, k: nat,
                                           data: seq<byte>, index: nat, next: nat)
    requires Known(c, t) && t.Struct? && v.ListV? && |v.items| == |t.fields| && k <= |t.fields|
    requires FieldsTyped(c, t.fields, v) && index <= |data|
    requires DecodeFields(c, limit, t, k, data, index) == Ok(v.items[..k], next)
    ensures FieldsFit(c, limit, t.fields, v, k) || EncodeFields(c, t.fields, v, k).None?
    ensures EncodeFields(c, t.fields, v, k).Some? ==>
      |EncodeFields(c, t.fields, v, k).value| == next - index
    decreases v, 0, k
  {
    hide Encode, Decode, Fits, Typed, Valid;
    if k > 0 {
      var r := DecodeFields(c, limit, t, k - 1, data, index);
      assert v.items[..k] == v.items[..k - 1] + [v.items[k - 1]];
      assert r.value == v.items[..k][..k - 1] == v.items[..k - 1];
      assert Decode(c, limit, t.fields[k - 1], data, r.next).value == v.items[..k][k - 1];
      ReencodedFields(c, limit, t, v, k - 1, data, index, r.next);
      ReencodedLength(c, limit, t.fields[k - 1], v.items[k - 1], data, r.next, next);
    }
  }

  /** Encoding a decoded value writes as many bytes as were read (not always the same bytes:
      any byte but 1 reads as false, any byte but 0 as a pointer), and those bytes in their
      place decode to the same value and offset. */
  lemma DecodeNormalizes(c: Context, limit: nat, t: Type, data: seq<byte>, index: nat)
    requires Known(c, t) && index <= |data| && Decode(c, limit, t, data, index).Ok?
    ensures var r := Decode(c, limit, t, data, index);
      && Typed(c, t, r.value)
      && (Encode(c, t, r.value).Some? ==>
            var b := Encode(c, t, r.value).value;
            && |b| == r.next - index
            && Decode(c, limit, t, data[..index] + b + data[r.next..], index) == r)
  {
    hide Decode, Encode, Fits, Typed;
    var r := Decode(c, limit, t, data, index);
    DecodedTyped(c, limit, t, data, index);
    ReencodedLength(c, limit, t, r.value, data, index, r.next);
    if Encode(c, t, r.value).Some? {
      var b := Encode(c, t, r.value).value;
      var other := data[..index] + b + data[r.next..];
      assert other[index..index + |b|] == b;
      RoundTrip(c, limit, t, r.value, other, index);
    }
  }

  // ---------------------------------------------------------------------------------------
  // Decoding reads only what it consumes
  // ---------------------------------------------------------------------------------------

  /** The two byte strings agree from `from` up to `to`. */
  predicate Agree(a: seq<byte>, b: seq<byte>, from: nat, to: nat) {
    from <= to <= |a| && to <= |b| && forall k | from <= k < to :: a[k] == b[k]
  }

  lemma AgreeSlices(a: seq<byte>, b: seq<byte>, from: nat, to: nat, i: nat, j: nat)
    requires Agree(a, b, from, to) && from <= i <= j <= to
    ensures a[i..j] == b[i..j]
  {}

  lemma LengthLocal(c: Context, a: seq<byte>, b: seq<byte>, index: nat, to: nat)
    requires Agree(a, b, index, to) && index + 8 <= to
    ensures DecodeLength(c, a, index) == DecodeLength(c, b, index)
  {
    AgreeSlices(a, b, index, to, index, index + 8);
  }

  lemma {:induction false} ReadsOnlyWhatItConsumes(c: Context, limit: nat, t: Type, a: seq<byte>,
                                                   b: seq<byte>, index: nat)
    requires Known(c, t) && index <= |a| && Decode(c, limit, t, a, index).Ok?
    requires Agree(a, b, index, Decode(c, limit, t, a, index).next)
    ensures Decode(c, limit, t, b, index) == Decode(c, limit, t, a, index)
    decreases |a| - index, Rank(t), t, 1, 0
  {
    hide Agree;
    var u, to := Under(c, t), Decode(c, limit, t, a, index).next;
    AgreeBounds(a, b, index, to);
    if u.Slice? || u.String? {
      LengthLocal(c, a, b, index, to);
      var len := DecodeLength(c, a, index);
      AgreeSlices(a, b, index, to, len.next, to);
      AgreeShrinks(a, b, index, to, len.next, to);
      if u.Slice? && !IsByte(c, u.elem) { ItemsLocal(c, limit, u.elem, len.value, a, b, len.next); }
    } else if u.Array? {
      ItemsLocal(c, limit, u.elem, u.len, a, b, index);
    } else if u.Struct? {
      FieldsLocal(c, limit, u, |u.fields|, a, b, index);
    } else if u.Num? {
      AgreeSlices(a, b, index, to, index, to);
    } else {
      AgreeAt(a, b, index, to);
      AgreeShrinks(a, b, index, to, index + 1, to);
      if u.Ptr? && a[index] != 0 { ReadsOnlyWhatItConsumes(c, limit, u.elem, a, b, index + 1); }
    }
  }

  lemma AgreeBounds(a: seq<byte>, b: seq<byte>, from: nat, to: nat)
    requires Agree(a, b, from, to)
    ensures from <= to <= |a| && to <= |b|
  {}

  lemma AgreeAt(a: seq<byte>, b: seq<byte>, from: nat, to: nat)
    requires Agree(a, b, from, to) && from < to
    ensures to <= |a| && to <= |b| && a[from] == b[from]
  {}

  lemma AgreeShrinks(a: seq<byte>, b: seq<byte>, from: nat, to: nat, i: nat, j: nat)
    requires Agree(a, b, from, to) && from <= i <= j <= to
    ensures Agree(a, b, i, j)
  {}

  lemma {:induction false} ItemsLocal(c: Context, limit: nat, e: Type, n: nat, a: seq<byte>,
                                      b: seq<byte>, index: nat)
    requires Known(c, e) && index <= |a| && DecodeItems(c, limit, e, n, a, index).Ok?
    requires Agree(a, b, index, DecodeItems(c, limit, e, n, a, index).next)
    ensures DecodeItems(c, limit, e, n, b, index) == DecodeItems(c, limit, e, n, a, index)
    decreases |a| - index, Rank(e), e, 2, n
  {
    hide Agree, Decode, Known;
    var to := DecodeItems(c, limit, e, n, a, index).next;
    AgreeBounds(a, b, index, to);
    if n > 0 {
      var r := DecodeItems(c, limit, e, n - 1, a, index);
      AgreeShrinks(a, b, index, to, index, r.next);
      AgreeShrinks(a, b, index, to, r.next, to);
      ItemsLocal(c, limit, e, n - 1, a, b, index);
      ReadsOnlyWhatItConsumes(c, limit, e, a, b, r.next);
    }
  }

  lemma {:induction false} FieldsLocal(c: Context, limit: nat, t: Type, k: nat, a: seq<byte>,
                                       b: seq<byte>, index: nat)
    requires Known(c, t) && t.Struct? && k <= |t.fields| && index <= |a|
    requires DecodeFields(c, limit, t, k, a, index).Ok?
    requires Agree(a, b, index, DecodeFields(c, limit, t, k, a, index).next)
    ensures DecodeFields(c, limit, t, k, b, index) == DecodeFields(c, limit, t, k, a, index)
    decreases |a| - index, Rank(t), t, 0, k
  {
    hide Agree, Decode;
    var to := DecodeFields(c, limit, t, k, a, index).next;
    AgreeBounds(a, b, index, to);
    if k > 0 {
      var r := DecodeFields(c, limit, t, k - 1, a, index);
      AgreeShrinks(a, b, index, to, index, r.next);
      AgreeShrinks(a, b, index, to, r.next, to);
      FieldsLocal(c, limit, t, k - 1, a, b, index);
      ReadsOnlyWhatItConsumes(c, limit, t.fields[k - 1], a, b, r.next);
    }
  }
}
