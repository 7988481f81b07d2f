/** What the decoder reads, as a relation between bytes and values, kind by kind, and which
    failure it reports. */
module GoReading {
  import opened GoValues
  import opened GoCodec
  import opened GoFormat

  /** The eight bytes at `index` are the digits of n, and n is an `int`. */
  predicate LengthAt(c: Context, data: seq<byte>, index: nat, n: nat) {
    index + 8 <= |data| && n <= c.maxInt && Digits(data[index..index + 8], n)
  }

  /** The value stands at `index` and ends before `next`. Any byte but 1 reads as false, and any
      byte but 0 in front of a pointer's target as a pointer. */
  ghost predicate Reads(c: Context, limit: nat, t: Type, data: seq<byte>, index: nat, v: Value, next: nat)
    requires Known(c, t)
    decreases v, 1, 0
  {
    match Under(c, t)
    case Bool => next == index + 1 <= |data| && v.BoolV? && (v.b <==> data[index] == 1)
    case Num(w, s) =>
      && next == index + w.Bytes() <= |data| && v.IntV? && InRange(w, s, v.n)
      && Digits(data[index..next], v.n % w.Modulus())
    case Slice(e) =>
      && v.ListV? && LengthAt(c, data, index, |v.items|)
      && if IsByte(c, e) then next == index + 8 + |v.items| <= |data| && BytesAt(data, index + 8, v.items)
         else |v.items| <= limit && ItemsRead(c, limit, e, data, index + 8, v, |v.items|, next)
    case Array(n, e) =>
      v.ListV? && |v.items| == n && ItemsRead(c, limit, e, data, index, v, n, next)
    case String =>
      && v.StringV? && LengthAt(c, data, index, |v.text|)
      && next == index + 8 + |v.text| <= |data| && data[index + 8..next] == v.text
    case Ptr(e) =>
      && index < |data|
      && if data[index] == 0 then v.NilV? && next == index + 1
         else v.RefV? && Reads(c, limit, e, data, index + 1, v.target, next)
    case Struct(fs) => v.ListV? && |v.items| == |fs| && FieldsRead(c, limit, fs, data, index, v, |fs|, next)
    case Unsupported => false
  }

  predicate BytesAt(data: seq<byte>, index: nat, items: seq<Value>)
    requires index + |items| <= |data|
  {
    forall i | 0 <= i < |items| :: items[i] == IntV(data[index + i])
  }

  /** The first k items stand one after the other. */
  ghost predicate ItemsRead(c: Context, limit: nat, e: Type, data: seq<byte>, index: nat, v: Value, k: nat, next: nat)
    requires Known(c, e) && v.ListV? && k <= |v.items|
    decreases v, 0, k
  {
    if k == 0 then next == index <= |data|
    else
      var j := k - 1;
      exists mid: nat ::
        ItemsRead(c, limit, e, data, index, v, j, mid) && Reads(c, limit, e, data, mid, v.items[j], next)
  }

  ghost predicate FieldsRead(c: Context, limit: nat, fs: seq<Type>, data: seq<byte>, index: nat, v: Value, k: nat,
                             next: nat)
    requires Known(c, Struct(fs)) && v.ListV? && k <= |v.items| && k <= |fs|
    decreases v, 0, k
  {
    if k == 0 then next == index <= |data|
    else
      var j := k - 1;
      exists mid: nat ::
        FieldsRead(c, limit, fs, data, index, v, j, mid) && Reads(c, limit, fs[j], data, mid, v.items[j], next)
  }

  // ---------------------------------------------------------------------------------------
  // Leaves
  // ---------------------------------------------------------------------------------------

  lemma LengthReads(c: Context, data: seq<byte>, index: nat, n: nat)
    requires Valid(c) && index <= |data|
    ensures DecodeLength(c, data, index) == Ok(n, index + 8) <==> LengthAt(c, data, index, n)
    ensures DecodeLength(c, data, index).Ok? ==> DecodeLength(c, data, index).next == index + 8
  {
    WidthModulus(W64);
    if index + 8 <= |data| && n <= c.maxInt { ReadDigits(data[index..index + 8], n); }
  }

  lemma NumReads(c: Context, limit: nat, t: Type, data: seq<byte>, index: nat, v: Value, next: nat)
    requires Known(c, t) && index <= |data| && Under(c, t).Num?
    ensures Decode(c, limit, t, data, index) == Ok(v, next) <==> Reads(c, limit, t, data, index, v, next)
  {
    var w, s := Under(c, t).width, Under(c, t).signed;
    if index + w.Bytes() <= |data| {
      var b := data[index..index + w.Bytes()];
      var x := FromLittleEndian(b);
      WidthModulus(w);
      FromLittleEndianBound(b);
      ReadDigits(b, x);
      if v.IntV? && InRange(w, s, v.n) {
        UnsignedIs(w, s, v.n);
        ReadDigits(b, v.n % w.Modulus());
      }
      UnsignedIs(w, s, DecodeNum(w, s, b));
    }
  }

  lemma ByteSliceReads(c: Context, limit: nat, t: Type, data: seq<byte>, index: nat, v: Value, next: nat)
    requires Known(c, t) && index <= |data| && Under(c, t).Slice? && IsByte(c, Under(c, t).elem)
    ensures Decode(c, limit, t, data, index) == Ok(v, next) <==> Reads(c, limit, t, data, index, v, next)
  {
    var len := DecodeLength(c, data, index);
    if len.Ok? {
      LengthReads(c, data, index, len.value);
      if len.next + len.value <= |data| {
        var items := ByteValues(data[len.next..len.next + len.value]);
        assert BytesAt(data, len.next, items);
        if v.ListV? && |v.items| == len.value && BytesAt(data, len.next, v.items) { assert v.items == items; }
      }
    }
    if v.ListV? { LengthReads(c, data, index, |v.items|); }
  }

  lemma StringReads(c: Context, limit: nat, t: Type, data: seq<byte>, index: nat, v: Value, next: nat)
    requires Known(c, t) && index <= |data| && Under(c, t).String?
    ensures Decode(c, limit, t, data, index) == Ok(v, next) <==> Reads(c, limit, t, data, index, v, next)
  {
    var len := DecodeLength(c, data, index);
    if len.Ok? { LengthReads(c, data, index, len.value); }
    if v.StringV? { LengthReads(c, data, index, |v.text|); }
  }

  // ---------------------------------------------------------------------------------------
  // All kinds
  // ---------------------------------------------------------------------------------------

  lemma SliceReads(c: Context, limit: nat, t: Type, data: seq<byte>, index: nat, v: Value, next: nat)
    requires Known(c, t) && index <= |data| && Under(c, t).Slice? && !IsByte(c, Under(c, t).elem)
    requires v.ListV? && index + 8 <= |data| ==>
      (DecodeItems(c, limit, Under(c, t).elem, |v.items|, data, index + 8) == Ok(v.items, next)
       <==> ItemsRead(c, limit, Under(c, t).elem, data, index + 8, v, |v.items|, next))
    ensures Decode(c, limit, t, data, index) == Ok(v, next) <==> Reads(c, limit, t, data, index, v, next)
  {
    var len := DecodeLength(c, data, index);
    if len.Ok? { LengthReads(c, data, index, len.value); }
    if v.ListV? { LengthReads(c, data, index, |v.items|); }
  }

  /** The decoder returns a value and an offset exactly when the value stands there. */
  lemma {:induction false} DecodesReads(c: Context, limit: nat, t: Type, data: seq<byte>, index: nat, v: Value,
                                        next: nat)
    requires Known(c, t) && index <= |data|
    ensures Decode(c, limit, t, data, index) == Ok(v, next) <==> Reads(c, limit, t, data, index, v, next)
    decreases v, 1, 0
  {
    var u := Under(c, t);
    if u.Num? { NumReads(c, limit, t, data, index, v, next); }
    else if u.String? { StringReads(c, limit, t, data, index, v, next); }
    else if u.Slice? && IsByte(c, u.elem) { ByteSliceReads(c, limit, t, data, index, v, next); }
    else if u.Slice? {
      if v.ListV? && index + 8 <= |data| {
        ItemsDecodeRead(c, limit, u.elem, data, index + 8, v, |v.items|, next);
        assert v.items[..|v.items|] == v.items;
      }
      SliceReads(c, limit, t, data, index, v, next);
    } else if u.Array? {
      if v.ListV? && |v.items| == u.len {
        ItemsDecodeRead(c, limit, u.elem, data, index, v, u.len, next);
        assert v.items[..|v.items|] == v.items;
      }
    } else if u.Ptr? {
      if v.RefV? && index < |data| { DecodesReads(c, limit, u.elem, data, index + 1, v.target, next); }
    } else if u.Struct? {
      if v.ListV? && |v.items| == |u.fields| {
        FieldsDecodeRead(c, limit, u, data, index, v, |u.fields|, next);
        assert v.items[..|v.items|] == v.items;
      }
    }
  }

  lemma {:induction false} ItemsDecodeRead(c: Context, limit: nat, e: Type, data: seq<byte>, index: nat, v: Value,
                                           k: nat, next: nat)
    requires Known(c, e) && v.ListV? && k <= |v.items| && index <= |data|
    ensures DecodeItems(c, limit, e, k, data, index) == Ok(v.items[..k], next)
       <==> ItemsRead(c, limit, e, data, index, v, k, next)
    decreases v, 0, k
  {
    if k > 0 {
      hide Decode, Reads, Valid;
      var r := DecodeItems(c, limit, e, k - 1, data, index);
      assert v.items[..k] == v.items[..k - 1] + [v.items[k - 1]];
      if r.Ok? {
        ItemsDecodeRead(c, limit, e, data, index, v, k - 1, r.next);
        DecodesReads(c, limit, e, data, r.next, v.items[k - 1], next);
        SnocSplit(r.value, v.items, k);
      }
      if ItemsRead(c, limit, e, data, index, v, k, next) {
        var mid: nat :| ItemsRead(c, limit, e, data, index, v, k - 1, mid)
          && Reads(c, limit, e, data, mid, v.items[k - 1], next);
        ItemsDecodeRead(c, limit, e, data, index, v, k - 1, mid);
      }
    }
  }

  lemma SnocSplit<T>(front: seq<T>, all: seq<T>, k: nat)
    requires 0 < k <= |all| && |front| == k - 1
    ensures forall x :: front + [x] == all[..k] <==> front == all[..k - 1] && x == all[k - 1]
  {
    forall x ensures front + [x] == all[..k] <==> front == all[..k - 1] && x == all[k - 1] {
      assert all[..k] == all[..k - 1] + [all[k - 1]];
      if front + [x] == all[..k] {
        assert front == (front + [x])[..k - 1] && x == (front + [x])[k - 1];
      }
    }
  }

  lemma {:induction false} FieldsDecodeRead(c: Context, limit: nat, t: Type, data: seq<byte>, index: nat, v: Value,
                                            k: nat, next: nat)
    requires Known(c, t) && t.Struct? && v.ListV? && k <= |v.items| && k <= |t.fields| && index <= |data|
    ensures DecodeFields(c, limit, t, k, data, index) == Ok(v.items[..k], next)
       <==> FieldsRead(c, limit, t.fields, data, index, v, k, next)
    decreases v, 0, k
  {
    if k > 0 {
      hide Decode, Reads, Valid;
      var r := DecodeFields(c, limit, t, k - 1, data, index);
      assert v.items[..k] == v.items[..k - 1] + [v.items[k - 1]];
      if r.Ok? {
        FieldsDecodeRead(c, limit, t, data, index, v, k - 1, r.next);
        DecodesReads(c, limit, t.fields[k - 1], data, r.next, v.items[k - 1], next);
        SnocSplit(r.value, v.items, k);
      }
      if FieldsRead(c, limit, t.fields, data, index, v, k, next) {
        var mid: nat :| FieldsRead(c, limit, t.fields, data, index, v, k - 1, mid)
          && Reads(c, limit, t.fields[k - 1], data, mid, v.items[k - 1], next);
        FieldsDecodeRead(c, limit, t, data, index, v, k - 1, mid);
      }
    }
  }

  // ---------------------------------------------------------------------------------------
  // Failures
  // ---------------------------------------------------------------------------------------

  /** The bytes a kind needs before anything else is read. */
  function Needs(u: Type): nat {
    match u
    case Bool => 1
    case Num(w, _) => w.Bytes()
    case Slice(_) => 8
    case String => 8
    case Ptr(_) => 1
    case _ => 0
  }

  /** Which failure is reported at the value itself, and when. */
  lemma FailuresAre(c: Context, limit: nat, t: Type, data: seq<byte>, index: nat)
    requires Known(c, t) && index <= |data|
    ensures
      var u, r := Under(c, t), Decode(c, limit, t, data, index);
      var short := index + Needs(u) > |data|;
      && (short ==> r == Err(NeedBytes))
      && (u.Unsupported? ==> r == Err(UnsupportedType))
      && (!short && (u.Slice? || u.String?) ==>
            var n := FromLittleEndian(data[index..index + 8]);
            var raw := u.String? || IsByte(c, u.elem);
            && (n > c.maxInt ==> r == Err(LengthExceedsInt))
            && (n <= c.maxInt && raw && index + 8 + n > |data| ==> r == Err(LengthExceedsData))
            && (n <= c.maxInt && !raw && n > limit ==> r == Err(SliceTooLong)))
  {
  }
}
