/** Types and values of the Go guest runtime, as its encoder and decoder see them through
    reflection (crates/go-runtime/zkvm_runtime). */
module GoValues {
  import opened Arithmetic

  type byte = x: nat | x < 256

  datatype Width = W8 | W16 | W32 | W64
  {
    function Bytes(): nat {
      match this case W8 => 1 case W16 => 2 case W32 => 4 case W64 => 8
    }
    function Modulus(): nat {
      match this case W8 => 0x100 case W16 => 0x1_0000 case W32 => 0x1_0000_0000
      case W64 => 0x1_0000_0000_0000_0000
    }
  }

  /** `Named(i)` is the i-th declared type, so types may be recursive. `Unsupported` stands for
      the kinds neither direction handles: maps, floats, plain `int`, ... */
  datatype Type =
    | Bool
    | Num(width: Width, signed: bool)
    | Slice(elem: Type)
    | Array(len: nat, elem: Type)
    | String
    | Ptr(elem: Type)
    | Struct(fields: seq<Type>)
    | Named(index: nat)
    | Unsupported

  datatype Value =
    | BoolV(b: bool)
    | IntV(n: int)
    | ListV(items: seq<Value>)      // slices, arrays and structs
    | StringV(text: seq<byte>)
    | NilV
    | RefV(target: Value)
    | OpaqueV

  /** The declared types and the largest `int` of the platform. */
  datatype Context = Context(env: seq<Type>, maxInt: nat)

  // ---------------------------------------------------------------------------------------
  // Well-formed declarations
  // ---------------------------------------------------------------------------------------

  predicate Closed(t: Type, n: nat) {
    match t
    case Slice(e) => Closed(e, n)
    case Array(_, e) => Closed(e, n)
    case Ptr(e) => Closed(e, n)
    case Struct(fs) => forall i | 0 <= i < |fs| :: Closed(fs[i], n)
    case Named(i) => i < n
    case _ => true
  }

  /** One more than the largest name used outside pointers and slices. */
  function Rank(t: Type): nat
    decreases t, 1, 0
  {
    match t
    case Named(i) => i + 1
    case Array(_, e) => Rank(e)
    case Struct(fs) => FieldsRank(t, |fs|)
    case _ => 0
  }

  function FieldsRank(t: Type, k: nat): (r: nat)
    requires t.Struct? && k <= |t.fields|
    ensures forall i | 0 <= i < k :: Rank(t.fields[i]) <= r
    decreases t, 0, k
  {
    if k == 0 then 0
    else
      var a, b := FieldsRank(t, k - 1), Rank(t.fields[k - 1]);
      if a < b then b else a
  }

  /** A type may contain itself only behind a pointer or a slice, so the declarations can be
      numbered with every other use going down. */
  predicate Valid(c: Context) {
    c.maxInt < 0x8000_0000_0000_0000
    && forall i | 0 <= i < |c.env| :: Closed(c.env[i], |c.env|) && Rank(c.env[i]) <= i
  }

  predicate Known(c: Context, t: Type) { Valid(c) && Closed(t, |c.env|) }

  /** The type behind its names: what `Kind` and the accessors of reflection look at. */
  function Under(c: Context, t: Type): (u: Type)
    requires Known(c, t)
    ensures Known(c, u) && !u.Named? && (u == t || Rank(u) < Rank(t))
    decreases Rank(t)
  {
    if t.Named? then Under(c, c.env[t.index]) else t
  }

  predicate IsByte(c: Context, t: Type)
    requires Known(c, t)
  {
    Under(c, t) == Num(W8, false)
  }

  // ---------------------------------------------------------------------------------------
  // Typed values
  // ---------------------------------------------------------------------------------------

  predicate InRange(width: Width, signed: bool, n: int) {
    var m := width.Modulus();
    if signed then -(m / 2) <= n < m / 2 else 0 <= n < m
  }

  predicate Typed(c: Context, t: Type, v: Value)
    requires Known(c, t)
    decreases v, 1
  {
    match Under(c, t)
    case Bool => v.BoolV?
    case Num(w, s) => v.IntV? && InRange(w, s, v.n)
    case Slice(e) => v.ListV? && |v.items| <= c.maxInt && AllTyped(c, e, v)
    case Array(n, e) => v.ListV? && |v.items| == n && AllTyped(c, e, v)
    case String => v.StringV? && |v.text| <= c.maxInt
    case Ptr(e) => v.NilV? || (v.RefV? && Typed(c, e, v.target))
    case Struct(fs) => v.ListV? && |v.items| == |fs| && FieldsTyped(c, fs, v)
    case Unsupported => v.OpaqueV?
  }

  predicate AllTyped(c: Context, e: Type, v: Value)
    requires Known(c, e) && v.ListV?
    decreases v, 0
  {
    forall i | 0 <= i < |v.items| :: Typed(c, e, v.items[i])
  }

  predicate FieldsTyped(c: Context, fs: seq<Type>, v: Value)
    requires Known(c, Struct(fs)) && v.ListV? && |v.items| == |fs|
    decreases v, 0
  {
    forall i | 0 <= i < |fs| :: Known(c, fs[i]) && Typed(c, fs[i], v.items[i])
  }

  // ---------------------------------------------------------------------------------------
  // Little-endian numbers
  // ---------------------------------------------------------------------------------------

  function LittleEndian(x: nat, size: nat): (r: seq<byte>)
    ensures |r| == size
  {
    if size == 0 then [] else [x % 256] + LittleEndian(x / 256, size - 1)
  }

  function FromLittleEndian(b: seq<byte>): nat {
    if b == [] then 0 else b[0] + 256 * FromLittleEndian(b[1..])
  }

  function Pow256(k: nat): nat { if k == 0 then 1 else 256 * Pow256(k - 1) }

  lemma {:induction false} LittleEndianRoundTrip(x: nat, size: nat)
    requires x < Pow256(size)
    ensures FromLittleEndian(LittleEndian(x, size)) == x
  {
    if size > 0 {
      LittleEndianRoundTrip(x / 256, size - 1);
      assert LittleEndian(x, size)[1..] == LittleEndian(x / 256, size - 1);
    }
  }

  /** Byte i is digit i in base 256, lowest first: the format, not just a round trip. */
  lemma {:induction false} LittleEndianDigit(x: nat, size: nat, i: nat)
    requires i < size
    ensures Pow256(i) > 0 && LittleEndian(x, size)[i] == x / Pow256(i) % 256
  {
    if i > 0 {
      LittleEndianDigit(x / 256, size - 1, i - 1);
      QuotientOfQuotient(x, Pow256(i - 1));
    }
  }

  lemma QuotientOfQuotient(x: nat, b: nat)
    requires b > 0
    ensures x / 256 / b == x / (256 * b)
  {
    var q, r := x / 256, x % 256;
    var t, s := q / b, q % b;
    assert q == b * t + s;
    assert x == (r + 256 * s) + 256 * (b * t);
    assert 256 * (b * t) == (256 * b) * t;
    DivisionIs(t, r + 256 * s, 256 * b);
  }

  lemma {:induction false} FromLittleEndianBound(b: seq<byte>)
    ensures FromLittleEndian(b) < Pow256(|b|)
  {
    if b != [] { FromLittleEndianBound(b[1..]); }
  }

  lemma WidthModulus(w: Width)
    ensures Pow256(w.Bytes()) == w.Modulus()
  {
    assert Pow256(2) == 256 * Pow256(1) && Pow256(1) == 256 * Pow256(0);
    assert Pow256(4) == 256 * Pow256(3) && Pow256(3) == 256 * Pow256(2);
    assert Pow256(8) == 256 * Pow256(7) && Pow256(7) == 256 * Pow256(6);
    assert Pow256(6) == 256 * Pow256(5) && Pow256(5) == 256 * Pow256(4);
  }

  /** Two's complement of a signed number, the number itself otherwise. */
  function ToUnsigned(w: Width, n: int): (r: nat)
    requires -(w.Modulus() / 2) <= n < w.Modulus()
    ensures r < w.Modulus()
  {
    if n < 0 then n + w.Modulus() else n
  }

  function FromUnsigned(w: Width, signed: bool, x: nat): (n: int)
    requires x < w.Modulus()
    ensures InRange(w, signed, n)
  {
    if signed && x >= w.Modulus() / 2 then x - w.Modulus() else x
  }

  function EncodeNum(w: Width, signed: bool, n: int): (r: seq<byte>)
    requires InRange(w, signed, n)
    ensures |r| == w.Bytes()
  {
    LittleEndian(ToUnsigned(w, n), w.Bytes())
  }

  function DecodeNum(w: Width, signed: bool, b: seq<byte>): (n: int)
    requires |b| == w.Bytes()
    ensures InRange(w, signed, n)
  {
    FromLittleEndianBound(b);
    WidthModulus(w);
    FromUnsigned(w, signed, FromLittleEndian(b))
  }

  lemma NumRoundTrip(w: Width, signed: bool, n: int)
    requires InRange(w, signed, n)
    ensures DecodeNum(w, signed, EncodeNum(w, signed, n)) == n
  {
    WidthModulus(w);
    LittleEndianRoundTrip(ToUnsigned(w, n), w.Bytes());
  }

  lemma ByteNum(n: byte)
    ensures EncodeNum(W8, false, n) == [n]
  {
    assert LittleEndian(n, 1) == [n % 256] + LittleEndian(n / 256, 0);
  }
}
