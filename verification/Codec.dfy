/** The binary format of scalars, strings, vectors and non-empty tuples, nested in any way. */
module Codec {
  import opened Wrappers

  newtype Byte = x: int | 0 <= x < 256

  /** A scalar is described by its size only. Tuples have at least one field. */
  datatype Type = Scalar(size: nat) | Str | Vec(elem: Type) | Tup(types: Types)
  datatype Types = LastType(t: Type) | MoreTypes(t: Type, rest: Types)

  /** A scalar value is its object representation. */
  datatype Value = Bits(bytes: seq<Byte>) | Text(chars: seq<Byte>) | List(elems: seq<Value>) | Tuple(fields: Fields)
  datatype Fields = LastField(v: Value) | MoreFields(v: Value, rest: Fields)

  const SIZE_OF_LENGTH: nat := 8
  const LENGTH_LIMIT: nat := 0x1_0000_0000_0000_0000

  ghost predicate HasType(v: Value, t: Type)
    decreases v
  {
    match (v, t)
    case (Bits(bytes), Scalar(size)) => |bytes| == size
    case (Text(chars), Str) => |chars| < LENGTH_LIMIT
    case (List(elems), Vec(elem)) => |elems| < LENGTH_LIMIT && forall x :: x in elems ==> HasType(x, elem)
    case (Tuple(fields), Tup(types)) => HaveTypes(fields, types)
    case _ => false
  }

  ghost predicate HaveTypes(fs: Fields, ts: Types)
    decreases fs
  {
    match (fs, ts)
    case (LastField(v), LastType(t)) => HasType(v, t)
    case (MoreFields(v, vs), MoreTypes(t, rest)) => HasType(v, t) && HaveTypes(vs, rest)
    case _ => false
  }

  /* ---- get_size ---- */

  function Size(v: Value): nat
    decreases v
  {
    match v
    case Bits(bytes) => |bytes|
    case Text(chars) => SIZE_OF_LENGTH + |chars|
    case List(elems) => SizeOfAll(elems, SIZE_OF_LENGTH)
    case Tuple(fields) => SizeOfFields(fields)
  }

  /** std::accumulate from the left, starting with `acc`. */
  function SizeOfAll(vs: seq<Value>, acc: nat): nat
    decreases vs
  {
    if vs == [] then acc else SizeOfAll(vs[1..], acc + Size(vs[0]))
  }

  function SizeOfFields(fs: Fields): nat
    decreases fs
  {
    match fs
    case LastField(v) => Size(v)
    case MoreFields(v, rest) => Size(v) + SizeOfFields(rest)
  }

  /* ---- the format ---- */

  /** `k` bytes, the least significant first. */
  function ToBytes(n: nat, k: nat): (bs: seq<Byte>)
    ensures |bs| == k
  {
    if k == 0 then [] else [(n % 256) as Byte] + ToBytes(n / 256, k - 1)
  }

  function FromBytes(bs: seq<Byte>): nat {
    if bs == [] then 0 else bs[0] as nat + 256 * FromBytes(bs[1..])
  }

  function Encode(v: Value): seq<Byte>
    decreases v
  {
    match v
    case Bits(bytes) => bytes
    case Text(chars) => ToBytes(|chars|, SIZE_OF_LENGTH) + chars
    case List(elems) => ToBytes(|elems|, SIZE_OF_LENGTH) + EncodeAll(elems)
    case Tuple(fields) => EncodeFields(fields)
  }

  function EncodeAll(vs: seq<Value>): seq<Byte>
    decreases vs
  {
    if vs == [] then [] else Encode(vs[0]) + EncodeAll(vs[1..])
  }

  function EncodeFields(fs: Fields): seq<Byte>
    decreases fs
  {
    match fs
    case LastField(v) => Encode(v)
    case MoreFields(v, rest) => Encode(v) + EncodeFields(rest)
  }

  /** A decoded value and the bytes behind it. */
  datatype Decoded<V> = Decoded(value: V, rest: seq<Byte>)

  /** None where the source's assertion on the remaining bytes fails. */
  function Take(n: nat, bs: seq<Byte>): Option<Decoded<seq<Byte>>> {
    if n <= |bs| then Some(Decoded(bs[..n], bs[n..])) else None
  }

  function DecodeLength(bs: seq<Byte>): Option<Decoded<nat>> {
    match Take(SIZE_OF_LENGTH, bs)
    case None => None
    case Some(d) => Some(Decoded(FromBytes(d.value), d.rest))
  }

  function Decode(t: Type, bs: seq<Byte>): Option<Decoded<Value>>
    decreases t, 0, 0
  {
    match t
    case Scalar(size) =>
      (match Take(size, bs)
       case None => None
       case Some(d) => Some(Decoded(Bits(d.value), d.rest)))
    case Str =>
      (match DecodeLength(bs)
       case None => None
       case Some(n) =>
         match Take(n.value, n.rest)
         case None => None
         case Some(d) => Some(Decoded(Text(d.value), d.rest)))
    case Vec(elem) =>
      (match DecodeLength(bs)
       case None => None
       case Some(n) =>
         match DecodeAll(elem, n.value, n.rest)
         case None => None
         case Some(d) => Some(Decoded(List(d.value), d.rest)))
    case Tup(types) =>
      match DecodeFields(types, bs)
      case None => None
      case Some(d) => Some(Decoded(Tuple(d.value), d.rest))
  }

  function DecodeAll(elem: Type, n: nat, bs: seq<Byte>): Option<Decoded<seq<Value>>>
    decreases elem, 1, n
  {
    if n == 0 then Some(Decoded([], bs))
    else
      match Decode(elem, bs)
      case None => None
      case Some(first) =>
        match DecodeAll(elem, n - 1, first.rest)
        case None => None
        case Some(more) => Some(Decoded([first.value] + more.value, more.rest))
  }

  function DecodeFields(ts: Types, bs: seq<Byte>): Option<Decoded<Fields>>
    decreases ts, 0, 0
  {
    match ts
    case LastType(t) =>
      (match Decode(t, bs)
       case None => None
       case Some(d) => Some(Decoded(LastField(d.value), d.rest)))
    case MoreTypes(t, rest) =>
      match Decode(t, bs)
      case None => None
      case Some(first) =>
        match DecodeFields(rest, first.rest)
        case None => None
        case Some(more) => Some(Decoded(MoreFields(first.value, more.value), more.rest))
  }

  /* ---- lengths ---- */

  function Pow256(k: nat): nat { if k == 0 then 1 else 256 * Pow256(k - 1) }

  lemma {:induction false} LengthLimit()
    ensures Pow256(SIZE_OF_LENGTH) == LENGTH_LIMIT
  {
    assert Pow256(4) == 0x1_0000_0000;
    assert Pow256(6) == 0x1_0000_0000_0000;
  }

  lemma {:induction false} FromToBytes(n: nat, k: nat)
    requires n < Pow256(k)
    ensures FromBytes(ToBytes(n, k)) == n
  {
    if k == 0 {
    } else {
      FromToBytes(n / 256, k - 1);
      assert ToBytes(n, k)[1..] == ToBytes(n / 256, k - 1);
    }
  }

  /** A byte and the number above it can be told apart again. */
  lemma {:induction false} LowAndHigh(lo: nat, hi: nat)
    requires lo < 256
    ensures (lo + 256 * hi) % 256 == lo && (lo + 256 * hi) / 256 == hi
  {
  }

  lemma {:induction false} ToFromBytes(bs: seq<Byte>)
    ensures ToBytes(FromBytes(bs), |bs|) == bs && FromBytes(bs) < Pow256(|bs|)
  {
    if bs == [] {
    } else {
      ToFromBytes(bs[1..]);
      LowAndHigh(bs[0] as nat, FromBytes(bs[1..]));
      assert bs == [bs[0]] + bs[1..];
    }
  }

  lemma {:induction false} DecodeLengthOf(n: nat, rest: seq<Byte>)
    requires n < LENGTH_LIMIT
    ensures DecodeLength(ToBytes(n, SIZE_OF_LENGTH) + rest) == Some(Decoded(n, rest))
  {
    LengthLimit();
    FromToBytes(n, SIZE_OF_LENGTH);
    var bs := ToBytes(n, SIZE_OF_LENGTH) + rest;
    assert bs[..SIZE_OF_LENGTH] == ToBytes(n, SIZE_OF_LENGTH) && bs[SIZE_OF_LENGTH..] == rest;
  }

  lemma {:induction false} LengthDecoded(bs: seq<Byte>)
    ensures DecodeLength(bs).Some? ==>
              var d := DecodeLength(bs).value;
              d.value < LENGTH_LIMIT && bs == ToBytes(d.value, SIZE_OF_LENGTH) + d.rest
  {
    if |bs| >= SIZE_OF_LENGTH {
      LengthLimit();
      ToFromBytes(bs[..SIZE_OF_LENGTH]);
      assert bs == bs[..SIZE_OF_LENGTH] + bs[SIZE_OF_LENGTH..];
    }
  }

  lemma {:induction false} DivUnique(n: nat, b: nat, q: nat, r: nat)
    requires b > 0 && n == b * q + r && r < b
    ensures n / b == q
  {
    var other := n / b;
    assert n == b * other + n % b;
    if other > q {
      NextMultiple(b, q, other);
      assert false;
    } else if other < q {
      NextMultiple(b, other, q);
      assert false;
    }
  }

  lemma {:induction false} NextMultiple(b: nat, x: nat, y: nat)
    requires x < y
    ensures b * y >= b * x + b
    decreases y
  {
    assert b * y == b * (y - 1) + b;
    if x == y - 1 {
    } else {
      NextMultiple(b, x, y - 1);
    }
  }

  lemma {:induction false} DivDiv(n: nat, p: nat)
    requires p > 0
    ensures 256 * p > 0 && n / (256 * p) == (n / 256) / p
  {
    var q, r := (n / 256) / p, (n / 256) % p;
    assert n / 256 == p * q + r;
    assert n == 256 * (p * q + r) + n % 256;
    assert 256 * (p * q) == (256 * p) * q;
    DivUnique(n, 256 * p, q, 256 * r + n % 256);
  }

  lemma {:induction false} PowPositive(k: nat)
    ensures Pow256(k) > 0
  {
    if k == 0 {
    } else {
      PowPositive(k - 1);
    }
  }

  /** The bytes of a length are its digits to the base 256, the least significant first. */
  lemma {:induction false} LittleEndian(n: nat, k: nat, i: nat)
    requires i < k
    ensures Pow256(i) > 0 && ToBytes(n, k)[i] as nat == (n / Pow256(i)) % 256
    decreases k
  {
    PowPositive(i);
    if i == 0 {
    } else {
      LittleEndian(n / 256, k - 1, i - 1);
      DivDiv(n, Pow256(i - 1));
    }
  }

  /* ---- the layout ---- */

  lemma {:induction false} EncodeAllConcat(vs: seq<Value>, ws: seq<Value>)
    ensures EncodeAll(vs + ws) == EncodeAll(vs) + EncodeAll(ws)
    decreases |vs|
  {
    if vs == [] {
      assert vs + ws == ws;
    } else {
      EncodeAllConcat(vs[1..], ws);
      assert (vs + ws)[1..] == vs[1..] + ws;
      Concat3(Encode(vs[0]), EncodeAll(vs[1..]), EncodeAll(ws));
    }
  }

  /** A scalar is its bytes, a string its length in 8 bytes and its characters. */
  lemma {:induction false} LayoutOfText(chars: seq<Byte>, i: nat)
    requires i < 8
    ensures Encode(Bits(chars)) == chars
    ensures |Encode(Text(chars))| == 8 + |chars| && Encode(Text(chars))[8..] == chars
    ensures Pow256(i) > 0 && Encode(Text(chars))[i] as nat == (|chars| / Pow256(i)) % 256
  {
    LittleEndian(|chars|, 8, i);
    assert Encode(Text(chars))[..8] == ToBytes(|chars|, 8);
  }

  /** A vector is its length in 8 bytes and its elements, in order. */
  lemma {:induction false} LayoutOfList(front: seq<Value>, v: Value, back: seq<Value>, i: nat)
    requires i < 8
    ensures
      var all, at := front + [v] + back, 8 + |EncodeAll(front)|;
      && at + |Encode(v)| <= |Encode(List(all))|
      && Encode(List(all))[8..at] == EncodeAll(front)
      && Encode(List(all))[at..at + |Encode(v)|] == Encode(v)
      && Encode(List(all))[at + |Encode(v)|..] == EncodeAll(back)
    ensures Pow256(i) > 0
    ensures Encode(List(front + [v] + back))[i] as nat == (|front + [v] + back| / Pow256(i)) % 256
  {
    var all := front + [v] + back;
    LittleEndian(|all|, 8, i);
    EncodeAllConcat(front + [v], back);
    EncodeAllConcat(front, [v]);
    EncodeOne(v);
    Spans(ToBytes(|all|, 8), EncodeAll(front), Encode(v), EncodeAll(back));
  }

  lemma {:induction false} EncodeOne(v: Value)
    ensures EncodeAll([v]) == Encode(v)
  {
    assert [v][1..] == [] && Encode(v) + [] == Encode(v);
  }

  lemma {:induction false} Spans(a: seq<Byte>, b: seq<Byte>, c: seq<Byte>, d: seq<Byte>)
    ensures
      var all, at := a + ((b + c) + d), |a| + |b|;
      && all[..|a|] == a && all[|a|..at] == b && all[at..at + |c|] == c && all[at + |c|..] == d
  {}

  /** A tuple is its fields, the first one first. */
  lemma {:induction false} LayoutOfTuple(v: Value, rest: Fields)
    ensures Encode(Tuple(LastField(v))) == Encode(v)
    ensures Encode(Tuple(MoreFields(v, rest))) == Encode(v) + Encode(Tuple(rest))
  {}

  /* ---- sizes ---- */

  lemma {:induction false} SizeExact(v: Value)
    ensures |Encode(v)| == Size(v)
    decreases v
  {
    match v
    case Bits(_) =>
    case Text(_) =>
    case List(elems) => SizeOfAllExact(elems, SIZE_OF_LENGTH);
    case Tuple(fields) => SizeOfFieldsExact(fields);
  }

  lemma {:induction false} SizeOfAllExact(vs: seq<Value>, acc: nat)
    ensures SizeOfAll(vs, acc) == acc + |EncodeAll(vs)|
    decreases vs
  {
    if vs == [] {
    } else {
      SizeExact(vs[0]);
      SizeOfAllExact(vs[1..], acc + Size(vs[0]));
    }
  }

  lemma {:induction false} SizeOfFieldsExact(fs: Fields)
    ensures |EncodeFields(fs)| == SizeOfFields(fs)
    decreases fs
  {
    match fs
    case LastField(v) => SizeExact(v);
    case MoreFields(v, rest) => SizeExact(v); SizeOfFieldsExact(rest);
  }

  /* ---- decoding undoes encoding ---- */

  lemma {:induction false} TakeAll(xs: seq<Byte>, rest: seq<Byte>)
    ensures Take(|xs|, xs + rest) == Some(Decoded(xs, rest))
  {
    assert (xs + rest)[..|xs|] == xs && (xs + rest)[|xs|..] == rest;
  }

  lemma {:induction false} Concat3(a: seq<Byte>, b: seq<Byte>, c: seq<Byte>)
    ensures (a + b) + c == a + (b + c)
  {}

  /** Every value of every type is read back from its encoding, whatever bytes follow, and exactly its own
      bytes are consumed. */
  lemma {:induction false} DecodeEncode(v: Value, t: Type, rest: seq<Byte>)
    requires HasType(v, t)
    ensures Decode(t, Encode(v) + rest) == Some(Decoded(v, rest))
    decreases v
  {
    match v
    case Bits(bytes) => TakeAll(bytes, rest);
    case Text(chars) =>
      Concat3(ToBytes(|chars|, SIZE_OF_LENGTH), chars, rest);
      DecodeLengthOf(|chars|, chars + rest);
      TakeAll(chars, rest);
    case List(elems) =>
      Concat3(ToBytes(|elems|, SIZE_OF_LENGTH), EncodeAll(elems), rest);
      DecodeLengthOf(|elems|, EncodeAll(elems) + rest);
      DecodeEncodeAll(elems, t.elem, rest);
    case Tuple(fields) => DecodeEncodeFields(fields, t.types, rest);
  }

  lemma {:induction false} DecodeEncodeAll(vs: seq<Value>, elem: Type, rest: seq<Byte>)
    requires forall x :: x in vs ==> HasType(x, elem)
    ensures DecodeAll(elem, |vs|, EncodeAll(vs) + rest) == Some(Decoded(vs, rest))
    decreases vs
  {
    if vs == [] {
      assert EncodeAll(vs) + rest == rest;
    } else {
      Concat3(Encode(vs[0]), EncodeAll(vs[1..]), rest);
      DecodeEncode(vs[0], elem, EncodeAll(vs[1..]) + rest);
      DecodeEncodeAll(vs[1..], elem, rest);
      assert [vs[0]] + vs[1..] == vs;
    }
  }

  lemma {:induction false} DecodeEncodeFields(fs: Fields, ts: Types, rest: seq<Byte>)
    requires HaveTypes(fs, ts)
    ensures DecodeFields(ts, EncodeFields(fs) + rest) == Some(Decoded(fs, rest))
    decreases fs
  {
    match fs
    case LastField(v) => DecodeEncode(v, ts.t, rest);
    case MoreFields(v, more) =>
      Concat3(Encode(v), EncodeFields(more), rest);
      DecodeEncode(v, ts.t, EncodeFields(more) + rest);
      DecodeEncodeFields(more, ts.rest, rest);
  }

  /* ---- and encoding undoes decoding ---- */

  /** Only encodings are decoded: a successful decode consumed the encoding of a value of the type. */
  lemma {:induction false} EncodeDecode(t: Type, bs: seq<Byte>)
    ensures Decode(t, bs).Some? ==>
              var d := Decode(t, bs).value;
              HasType(d.value, t) && bs == Encode(d.value) + d.rest
    decreases t, 0, 0
  {
    match t
    case Scalar(size) =>
    case Str =>
      LengthDecoded(bs);
      if Decode(t, bs).Some? {
        var n, d := DecodeLength(bs).value, Decode(t, bs).value;
        assert n.rest == d.value.chars + d.rest;
        Concat3(ToBytes(n.value, SIZE_OF_LENGTH), d.value.chars, d.rest);
      }
    case Vec(elem) =>
      LengthDecoded(bs);
      if Decode(t, bs).Some? {
        var n, d := DecodeLength(bs).value, Decode(t, bs).value;
        EncodeDecodeAll(elem, n.value, n.rest);
        Concat3(ToBytes(n.value, SIZE_OF_LENGTH), EncodeAll(d.value.elems), d.rest);
      }
    case Tup(types) => EncodeDecodeFields(types, bs);
  }

  lemma {:induction false} EncodeDecodeAll(elem: Type, n: nat, bs: seq<Byte>)
    ensures DecodeAll(elem, n, bs).Some? ==>
              var d := DecodeAll(elem, n, bs).value;
              |d.value| == n && (forall x :: x in d.value ==> HasType(x, elem)) && bs == EncodeAll(d.value) + d.rest
    decreases elem, 1, n
  {
    if n == 0 || DecodeAll(elem, n, bs).None? {
    } else {
      EncodeDecode(elem, bs);
      var first := Decode(elem, bs).value;
      EncodeDecodeAll(elem, n - 1, first.rest);
      var more := DecodeAll(elem, n - 1, first.rest).value;
      assert ([first.value] + more.value)[1..] == more.value;
      Concat3(Encode(first.value), EncodeAll(more.value), more.rest);
    }
  }

  lemma {:induction false} EncodeDecodeFields(ts: Types, bs: seq<Byte>)
    ensures DecodeFields(ts, bs).Some? ==>
              var d := DecodeFields(ts, bs).value;
              HaveTypes(d.value, ts) && bs == EncodeFields(d.value) + d.rest
    decreases ts, 0, 0
  {
    EncodeDecode(ts.t, bs);
    match ts
    case LastType(_) =>
    case MoreTypes(t, rest) =>
      if DecodeFields(ts, bs).Some? {
        var first := Decode(t, bs).value;
        EncodeDecodeFields(rest, first.rest);
        var more := DecodeFields(rest, first.rest).value;
        Concat3(Encode(first.value), EncodeFields(more.value), more.rest);
      }
  }

  /** No two different values of a type share an encoding, and none is a prefix of another. */
  lemma {:induction false} EncodingIsPrefixFree(v: Value, w: Value, t: Type, rest: seq<Byte>, rest': seq<Byte>)
    requires HasType(v, t) && HasType(w, t) && Encode(v) + rest == Encode(w) + rest'
    ensures v == w && rest == rest'
  {
    DecodeEncode(v, t, rest);
    DecodeEncode(w, t, rest');
  }

  /* ---- several values back to back ---- */

  function DecodeMany(ts: seq<Type>, bs: seq<Byte>): Option<Decoded<seq<Value>>> {
    if ts == [] then Some(Decoded([], bs))
    else
      match Decode(ts[0], bs)
      case None => None
      case Some(first) =>
        match DecodeMany(ts[1..], first.rest)
        case None => None
        case Some(more) => Some(Decoded([first.value] + more.value, more.rest))
  }

  /** Values serialized back to back are read back in order. */
  lemma {:induction false} BackToBack(vs: seq<Value>, ts: seq<Type>, rest: seq<Byte>)
    requires |vs| == |ts| && forall i :: 0 <= i < |vs| ==> HasType(vs[i], ts[i])
    ensures DecodeMany(ts, EncodeAll(vs) + rest) == Some(Decoded(vs, rest))
    decreases |vs|
  {
    if vs == [] {
      assert EncodeAll(vs) + rest == rest;
    } else {
      Concat3(Encode(vs[0]), EncodeAll(vs[1..]), rest);
      DecodeEncode(vs[0], ts[0], EncodeAll(vs[1..]) + rest);
      BackToBack(vs[1..], ts[1..], rest);
      assert [vs[0]] + vs[1..] == vs;
    }
  }
}
