/** The typed encoder and decoder (serialize.go, deserialize.go): the functions they compute,
    and the methods that compute them. */
module GoCodec {
  import opened Options
  import opened GoValues

  // ---------------------------------------------------------------------------------------
  // Encoding
  // ---------------------------------------------------------------------------------------

  predicate ByteItems(items: seq<Value>) {
    forall i | 0 <= i < |items| :: items[i].IntV? && 0 <= items[i].n < 256
  }

  /** The bytes of a list of byte values. */
  function RawBytes(items: seq<Value>): (r: seq<byte>)
    requires ByteItems(items)
    ensures |r| == |items|
  {
    if items == [] then []
    else RawBytes(items[..|items| - 1]) + [items[|items| - 1].n]
  }

  lemma TypedBytes(c: Context, e: Type, v: Value)
    requires Known(c, e) && v.ListV? && AllTyped(c, e, v) && IsByte(c, e)
    ensures ByteItems(v.items)
  {
    forall i | 0 <= i < |v.items| ensures v.items[i].IntV? && 0 <= v.items[i].n < 256 {
      assert Typed(c, e, v.items[i]);
    }
  }

  /** What `serializeData` returns; `None` for an error or a panic. */
  function Encode(c: Context, t: Type, v: Value): Option<seq<byte>>
    requires Known(c, t) && Typed(c, t, v)
    decreases v, 1, 0
  {
    match Under(c, t)
    case Bool => Some([if v.b then 1 else 0])
    case Num(w, s) => Some(EncodeNum(w, s, v.n))
    case Slice(e) =>
      var body := EncodeItems(c, e, v, |v.items|);
      if body.None? then None else Some(LittleEndian(|v.items|, 8) + body.value)
    case Array(_, e) =>
      if IsByte(c, e) then TypedBytes(c, e, v); Some(RawBytes(v.items)) else None
    case String => Some(LittleEndian(|v.text|, 8) + v.text)
    case Ptr(e) =>
      if v.NilV? then Some([0])
      else
        var d := Encode(c, e, v.target);
        if d.None? then None else Some([1] + d.value)
    case Struct(fs) => EncodeFields(c, fs, v, |fs|)
    case Unsupported => None
  }

  function Append(a: Option<seq<byte>>, b: Option<seq<byte>>): Option<seq<byte>> {
    if a.None? || b.None? then None else Some(a.value + b.value)
  }

  function EncodeItems(c: Context, e: Type, v: Value, k: nat): Option<seq<byte>>
    requires Known(c, e) && v.ListV? && k <= |v.items| && AllTyped(c, e, v)
    decreases v, 0, k
  {
    if k == 0 then Some([])
    else Append(EncodeItems(c, e, v, k - 1), Encode(c, e, v.items[k - 1]))
  }

  function EncodeFields(c: Context, fs: seq<Type>, v: Value, k: nat): Option<seq<byte>>
    requires Known(c, Struct(fs)) && v.ListV? && |v.items| == |fs| && k <= |fs|
    requires FieldsTyped(c, fs, v)
    decreases v, 0, k
  {
    if k == 0 then Some([])
    else Append(EncodeFields(c, fs, v, k - 1), Encode(c, fs[k - 1], v.items[k - 1]))
  }

  // ---------------------------------------------------------------------------------------
  // Decoding
  // ---------------------------------------------------------------------------------------

  datatype Failure = NeedBytes | LengthExceedsInt | LengthExceedsData | SliceTooLong | UnsupportedType

  datatype Decoded<+T> = Ok(value: T, next: nat) | Err(failure: Failure)

  predicate Within<T>(r: Decoded<T>, index: nat, data: seq<byte>) {
    r.Ok? ==> index <= r.next <= |data|
  }

  function ByteValues(b: seq<byte>): (r: seq<Value>)
    ensures |r| == |b| && forall i | 0 <= i < |b| :: r[i] == IntV(b[i])
  {
    seq(|b|, i requires 0 <= i < |b| => IntV(b[i]))
  }

  /** The length in front of a slice or string. */
  function DecodeLength(c: Context, data: seq<byte>, index: nat): (r: Decoded<nat>)
    requires index <= |data|
    ensures r.Ok? ==> r.next == index + 8 <= |data| && r.value <= c.maxInt
  {
    if 8 > |data| - index then Err(NeedBytes)
    else
      var n := FromLittleEndian(data[index..index + 8]);
      if n > c.maxInt then Err(LengthExceedsInt) else Ok(n, index + 8)
  }

  /** What `deserializeData` returns: the value and the offset behind it. It ends because the
      bytes left shrink at every pointer and slice, and the type shrinks everywhere else. */
  function Decode(c: Context, limit: nat, t: Type, data: seq<byte>, index: nat): (r: Decoded<Value>)
    requires Known(c, t) && index <= |data|
    ensures Within(r, index, data)
    decreases |data| - index, Rank(t), t, 1, 0
  {
    match Under(c, t)
    case Bool =>
      if 1 > |data| - index then Err(NeedBytes) else Ok(BoolV(data[index] == 1), index + 1)
    case Num(w, s) =>
      if w.Bytes() > |data| - index then Err(NeedBytes)
      else Ok(IntV(DecodeNum(w, s, data[index..index + w.Bytes()])), index + w.Bytes())
    case Slice(e) =>
      var len := DecodeLength(c, data, index);
      if len.Err? then Err(len.failure)
      else if IsByte(c, e) then
        if len.value > |data| - len.next then Err(LengthExceedsData)
        else Ok(ListV(ByteValues(data[len.next..len.next + len.value])), len.next + len.value)
      else if len.value > limit then Err(SliceTooLong)
      else List(DecodeItems(c, limit, e, len.value, data, len.next))
    case Array(n, e) => List(DecodeItems(c, limit, e, n, data, index))
    case String =>
      var len := DecodeLength(c, data, index);
      if len.Err? then Err(len.failure)
      else if len.value > |data| - len.next then Err(LengthExceedsData)
      else Ok(StringV(data[len.next..len.next + len.value]), len.next + len.value)
    case Ptr(e) =>
      if 1 > |data| - index then Err(NeedBytes)
      else if data[index] == 0 then Ok(NilV, index + 1)
      else
        var r := Decode(c, limit, e, data, index + 1);
        if r.Err? then r else Ok(RefV(r.value), r.next)
    case Struct(fs) => List(DecodeFields(c, limit, Struct(fs), |fs|, data, index))
    case Unsupported => Err(UnsupportedType)
  }

  function List(r: Decoded<seq<Value>>): Decoded<Value> {
    if r.Err? then Err(r.failure) else Ok(ListV(r.value), r.next)
  }

  function DecodeItems(c: Context, limit: nat, e: Type, n: nat, data: seq<byte>, index: nat)
    : (r: Decoded<seq<Value>>)
    requires Known(c, e) && index <= |data|
    ensures Within(r, index, data) && (r.Ok? ==> |r.value| == n)
    decreases |data| - index, Rank(e), e, 2, n
  {
    if n == 0 then Ok([], index)
    else
      var r := DecodeItems(c, limit, e, n - 1, data, index);
      if r.Err? then r
      else
        var x := Decode(c, limit, e, data, r.next);
        if x.Err? then Err(x.failure) else Ok(r.value + [x.value], x.next)
  }

  function DecodeFields(c: Context, limit: nat, t: Type, k: nat, data: seq<byte>, index: nat)
    : (r: Decoded<seq<Value>>)
    requires Known(c, t) && t.Struct? && k <= |t.fields| && index <= |data|
    ensures Within(r, index, data) && (r.Ok? ==> |r.value| == k)
    decreases |data| - index, Rank(t), t, 0, k
  {
    if k == 0 then Ok([], index)
    else
      var r := DecodeFields(c, limit, t, k - 1, data, index);
      if r.Err? then r
      else
        var x := Decode(c, limit, t.fields[k - 1], data, r.next);
        if x.Err? then Err(x.failure) else Ok(r.value + [x.value], x.next)
  }
}
