/** The wire format as a relation between values and bytes, kind by kind: the encoder writes
    exactly these bytes, and the decoder reads exactly these values. */
module GoFormat {
  import opened Options
  import opened Arithmetic
  import opened GoValues
  import opened GoCodec

  // ---------------------------------------------------------------------------------------
  // Digits
  // ---------------------------------------------------------------------------------------

  lemma {:induction false} Pow256Positive(k: nat)
    ensures Pow256(k) > 0
  {
    if k > 0 { Pow256Positive(k - 1); }
  }

  function DigitOf(x: nat, i: nat): nat {
    Pow256Positive(i);
    x / Pow256(i) % 256
  }

  /** The bytes are the digits of x in base 256, lowest first. */
  predicate Digits(b: seq<byte>, x: nat) {
    forall i | 0 <= i < |b| :: b[i] == DigitOf(x, i)
  }

  lemma LittleEndianIsDigits(x: nat, b: seq<byte>)
    ensures b == LittleEndian(x, |b|) <==> Digits(b, x)
  {
    var c := LittleEndian(x, |b|);
    forall i | 0 <= i < |b| ensures c[i] == DigitOf(x, i) { LittleEndianDigit(x, |b|, i); }
  }

  lemma {:induction false} ToLittleEndian(b: seq<byte>)
    ensures LittleEndian(FromLittleEndian(b), |b|) == b
  {
    if b != [] {
      var x := FromLittleEndian(b);
      ToLittleEndian(b[1..]);
      assert x % 256 == b[0] && x / 256 == FromLittleEndian(b[1..]);
      assert b == [b[0]] + b[1..];
    }
  }

  /** Reading digits back. */
  lemma ReadDigits(b: seq<byte>, x: nat)
    requires x < Pow256(|b|)
    ensures FromLittleEndian(b) == x <==> Digits(b, x)
  {
    LittleEndianIsDigits(x, b);
    ToLittleEndian(b);
    LittleEndianRoundTrip(x, |b|);
  }

  lemma UnsignedIs(w: Width, signed: bool, n: int)
    requires InRange(w, signed, n)
    ensures ToUnsigned(w, n) == n % w.Modulus()
  {
    var m := w.Modulus();
    if n < 0 { DivisionIs(-1, n + m, m); } else { DivisionIs(0, n, m); }
  }

  // ---------------------------------------------------------------------------------------
  // What is written
  // ---------------------------------------------------------------------------------------

  /** `b` are the bytes of the value. */
  ghost predicate Format(c: Context, t: Type, v: Value, b: seq<byte>)
    requires Known(c, t) && Typed(c, t, v)
    decreases v, 1, 0
  {
    match Under(c, t)
    case Bool => |b| == 1 && (b[0] == 1 <==> v.b) && (b[0] == 0 <==> !v.b)
    case Num(w, _) => |b| == w.Bytes() && Digits(b, v.n % w.Modulus())
    case Slice(e) => |b| >= 8 && Digits(b[..8], |v.items|) && ItemsFormat(c, e, v, |v.items|, b[8..])
    case Array(_, e) =>
      IsByte(c, e) && |b| == |v.items| && forall i | 0 <= i < |b| :: v.items[i] == IntV(b[i])
    case String => |b| == 8 + |v.text| && Digits(b[..8], |v.text|) && b[8..] == v.text
    case Ptr(e) =>
      && |b| >= 1 && b[0] == (if v.NilV? then 0 else 1)
      && if v.NilV? then |b| == 1 else Format(c, e, v.target, b[1..])
    case Struct(fs) => FieldsFormat(c, fs, v, |fs|, b)
    case Unsupported => false
  }

  /** The first k items one after the other. */
  ghost predicate ItemsFormat(c: Context, e: Type, v: Value, k: nat, b: seq<byte>)
    requires Known(c, e) && v.ListV? && k <= |v.items| && AllTyped(c, e, v)
    decreases v, 0, k
  {
    if k == 0 then b == []
    else exists cut | 0 <= cut <= |b| ::
      ItemsFormat(c, e, v, k - 1, b[..cut]) && Format(c, e, v.items[k - 1], b[cut..])
  }

  /** The first k fields one after the other. */
  ghost predicate FieldsFormat(c: Context, fs: seq<Type>, v: Value, k: nat, b: seq<byte>)
    requires Known(c, Struct(fs)) && v.ListV? && |v.items| == |fs| && k <= |fs|
    requires FieldsTyped(c, fs, v)
    decreases v, 0, k
  {
    if k == 0 then b == []
    else exists cut | 0 <= cut <= |b| ::
      FieldsFormat(c, fs, v, k - 1, b[..cut]) && Format(c, fs[k - 1], v.items[k - 1], b[cut..])
  }

  lemma PrefixSplit(p: seq<byte>, rest: seq<byte>, b: seq<byte>, n: nat)
    requires |p| == n
    ensures b == p + rest <==> |b| >= n && b[..n] == p && b[n..] == rest
  {
  }

  lemma AppendIs(first: Option<seq<byte>>, last: Option<seq<byte>>, b: seq<byte>)
    ensures Append(first, last) == Some(b)
       <==> exists cut | 0 <= cut <= |b| :: first == Some(b[..cut]) && last == Some(b[cut..])
  {
    if Append(first, last) == Some(b) {
      var cut := |first.value|;
      assert b[..cut] == first.value && b[cut..] == last.value;
    }
    if cut :| 0 <= cut <= |b| && first == Some(b[..cut]) && last == Some(b[cut..]) {
      assert b == b[..cut] + b[cut..];
    }
  }

  lemma BoolFormat(c: Context, t: Type, v: Value, b: seq<byte>)
    requires Known(c, t) && Typed(c, t, v) && Under(c, t).Bool?
    ensures Encode(c, t, v) == Some(b) <==> Format(c, t, v, b)
  {
    assert b == [1] <==> |b| == 1 && b[0] == 1;
    assert b == [0] <==> |b| == 1 && b[0] == 0;
  }

  lemma NumFormat(c: Context, t: Type, v: Value, b: seq<byte>)
    requires Known(c, t) && Typed(c, t, v) && Under(c, t).Num?
    ensures Encode(c, t, v) == Some(b) <==> Format(c, t, v, b)
  {
    var w, s := Under(c, t).width, Under(c, t).signed;
    UnsignedIs(w, s, v.n);
    if |b| == w.Bytes() { LittleEndianIsDigits(v.n % w.Modulus(), b); }
  }

  lemma {:induction false} RawBytesAre(items: seq<Value>, b: seq<byte>)
    requires ByteItems(items)
    ensures RawBytes(items) == b <==> |b| == |items| && forall i | 0 <= i < |b| :: items[i] == IntV(b[i])
  {
    if items == [] {
    } else if |b| == |items| {
      var k := |items| - 1;
      RawBytesAre(items[..k], b[..k]);
      assert b == b[..k] + [b[k]];
      if RawBytes(items) == b { assert b[..k] == RawBytes(items[..k]); }
      if forall i | 0 <= i < |b| :: items[i] == IntV(b[i]) {
        forall i | 0 <= i < k ensures items[..k][i] == IntV(b[..k][i]) {}
      }
    }
  }

  lemma ArrayFormat(c: Context, t: Type, v: Value, b: seq<byte>)
    requires Known(c, t) && Typed(c, t, v) && Under(c, t).Array?
    ensures Encode(c, t, v) == Some(b) <==> Format(c, t, v, b)
  {
    var e := Under(c, t).elem;
    if IsByte(c, e) {
      TypedBytes(c, e, v);
      RawBytesAre(v.items, b);
    }
  }

  lemma StringFormat(c: Context, t: Type, v: Value, b: seq<byte>)
    requires Known(c, t) && Typed(c, t, v) && Under(c, t).String?
    ensures Encode(c, t, v) == Some(b) <==> Format(c, t, v, b)
  {
    PrefixSplit(LittleEndian(|v.text|, 8), v.text, b, 8);
    if |b| >= 8 { LittleEndianIsDigits(|v.text|, b[..8]); }
  }

  lemma SliceFormat(c: Context, t: Type, v: Value, b: seq<byte>)
    requires Known(c, t) && Typed(c, t, v) && Under(c, t).Slice?
    requires |b| >= 8 ==>
      (EncodeItems(c, Under(c, t).elem, v, |v.items|) == Some(b[8..])
       <==> ItemsFormat(c, Under(c, t).elem, v, |v.items|, b[8..]))
    ensures Encode(c, t, v) == Some(b) <==> Format(c, t, v, b)
  {
    var body := EncodeItems(c, Under(c, t).elem, v, |v.items|);
    if body.Some? { PrefixSplit(LittleEndian(|v.items|, 8), body.value, b, 8); }
    if |b| >= 8 { LittleEndianIsDigits(|v.items|, b[..8]); }
  }

  lemma PtrFormat(c: Context, t: Type, v: Value, b: seq<byte>)
    requires Known(c, t) && Typed(c, t, v) && Under(c, t).Ptr?
    requires v.RefV? && |b| >= 1 ==>
      (Encode(c, Under(c, t).elem, v.target) == Some(b[1..]) <==> Format(c, Under(c, t).elem, v.target, b[1..]))
    ensures Encode(c, t, v) == Some(b) <==> Format(c, t, v, b)
  {
    if v.RefV? {
      var d := Encode(c, Under(c, t).elem, v.target);
      if d.Some? { PrefixSplit([1], d.value, b, 1); }
      if |b| >= 1 { assert b[..1] == [1] <==> b[0] == 1; }
    } else {
      assert b == [0] <==> |b| == 1 && b[0] == 0;
    }
  }

  /** The encoder writes exactly the bytes of the format. */
  lemma {:induction false} EncodesFormat(c: Context, t: Type, v: Value, b: seq<byte>)
    requires Known(c, t) && Typed(c, t, v)
    ensures Encode(c, t, v) == Some(b) <==> Format(c, t, v, b)
    decreases v, 1, 0
  {
    var u := Under(c, t);
    if u.Bool? { BoolFormat(c, t, v, b); }
    else if u.Num? { NumFormat(c, t, v, b); }
    else if u.Array? { ArrayFormat(c, t, v, b); }
    else if u.String? { StringFormat(c, t, v, b); }
    else if u.Slice? {
      if |b| >= 8 { ItemsEncodeFormat(c, u.elem, v, |v.items|, b[8..]); }
      SliceFormat(c, t, v, b);
    } else if u.Ptr? {
      if v.RefV? && |b| >= 1 { EncodesFormat(c, u.elem, v.target, b[1..]); }
      PtrFormat(c, t, v, b);
    } else if u.Struct? {
      FieldsEncodeFormat(c, u.fields, v, |u.fields|, b);
    }
  }

  lemma {:induction false} ItemsEncodeFormat(c: Context, e: Type, v: Value, k: nat, b: seq<byte>)
    requires Known(c, e) && v.ListV? && k <= |v.items| && AllTyped(c, e, v)
    ensures EncodeItems(c, e, v, k) == Some(b) <==> ItemsFormat(c, e, v, k, b)
    decreases v, 0, k
  {
    if k > 0 {
      hide Encode, Format, Typed, Valid, Append;
      forall cut | 0 <= cut <= |b|
        ensures EncodeItems(c, e, v, k - 1) == Some(b[..cut]) <==> ItemsFormat(c, e, v, k - 1, b[..cut])
        ensures Encode(c, e, v.items[k - 1]) == Some(b[cut..]) <==> Format(c, e, v.items[k - 1], b[cut..])
      {
        ItemsEncodeFormat(c, e, v, k - 1, b[..cut]);
        EncodesFormat(c, e, v.items[k - 1], b[cut..]);
      }
      AppendIs(EncodeItems(c, e, v, k - 1), Encode(c, e, v.items[k - 1]), b);
    }
  }

  lemma {:induction false} FieldsEncodeFormat(c: Context, fs: seq<Type>, v: Value, k: nat, b: seq<byte>)
    requires Known(c, Struct(fs)) && v.ListV? && |v.items| == |fs| && k <= |fs|
    requires FieldsTyped(c, fs, v)
    ensures EncodeFields(c, fs, v, k) == Some(b) <==> FieldsFormat(c, fs, v, k, b)
    decreases v, 0, k
  {
    if k > 0 {
      hide Encode, Format, Typed, Valid, Append;
      forall cut | 0 <= cut <= |b|
        ensures EncodeFields(c, fs, v, k - 1) == Some(b[..cut]) <==> FieldsFormat(c, fs, v, k - 1, b[..cut])
        ensures Encode(c, fs[k - 1], v.items[k - 1]) == Some(b[cut..])
           <==> Format(c, fs[k - 1], v.items[k - 1], b[cut..])
      {
        FieldsEncodeFormat(c, fs, v, k - 1, b[..cut]);
        EncodesFormat(c, fs[k - 1], v.items[k - 1], b[cut..]);
      }
      AppendIs(EncodeFields(c, fs, v, k - 1), Encode(c, fs[k - 1], v.items[k - 1]), b);
    }
  }
}
