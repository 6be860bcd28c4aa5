/** Serializing into a byte buffer and deserializing with a cursor, element by element. */
module CodecBuffers {
  import opened Wrappers
  import opened Codec

  /** `after` is `before` with `bytes` written at `at`. */
  ghost predicate Wrote(before: seq<Byte>, after: seq<Byte>, at: nat, bytes: seq<Byte>) {
    at + |bytes| <= |before| && after == before[..at] + bytes + before[at + |bytes|..]
  }

  lemma {:induction false} WroteMore(a: seq<Byte>, b: seq<Byte>, c: seq<Byte>, at: nat, x: seq<Byte>, y: seq<Byte>)
    requires Wrote(a, b, at, x) && Wrote(b, c, at + |x|, y)
    ensures Wrote(a, c, at, x + y)
  {
    assert b[..at + |x|] == a[..at] + x;
    assert b[at + |x| + |y|..] == a[at + |x + y|..];
  }

  lemma {:induction false} EncodeAllSnoc(vs: seq<Value>, i: nat)
    requires i < |vs|
    ensures EncodeAll(vs[..i + 1]) == EncodeAll(vs[..i]) + Encode(vs[i])
    ensures |EncodeAll(vs[..i])| + |Encode(vs[i])| <= |EncodeAll(vs)|
  {
    if i == 0 {
      assert vs[..1] == [vs[0]] && vs[..1][1..] == [];
      assert EncodeAll(vs[..1]) == Encode(vs[0]);
    } else {
      EncodeAllSnoc(vs[1..], i - 1);
      assert vs[..i + 1][1..] == vs[1..][..i] && vs[..i][1..] == vs[1..][..i - 1];
      Concat3(Encode(vs[0]), EncodeAll(vs[1..][..i - 1]), Encode(vs[i]));
    }
  }

  /** Copies bytes, one after the other. */
  method Copy(bytes: seq<Byte>, res: array<Byte>, it: nat) returns (it': nat)
    requires it + |bytes| <= res.Length
    modifies res
    ensures it' == it + |bytes| && Wrote(old(res[..]), res[..], it, bytes)
  {
    it' := it;
    ghost var before := res[..];
    for i := 0 to |bytes|
      invariant it' == it + i && Wrote(before, res[..], it, bytes[..i])
    {
      ghost var mid := res[..];
      res[it'] := bytes[i];
      assert Wrote(mid, res[..], it + i, [bytes[i]]);
      WroteMore(before, mid, res[..], it, bytes[..i], [bytes[i]]);
      assert bytes[..i + 1] == bytes[..i] + [bytes[i]];
      it' := it' + 1;
    }
    assert bytes[..|bytes|] == bytes;
  }

  /** Writes the format of `v` at the iterator and moves the iterator behind it. */
  method Serializer(v: Value, res: array<Byte>, it: nat) returns (it': nat)
    requires it + |Encode(v)| <= res.Length
    modifies res
    ensures it' == it + |Encode(v)| && Wrote(old(res[..]), res[..], it, Encode(v))
    decreases v
  {
    match v
    case Bits(bytes) => it' := Copy(bytes, res, it);
    case Text(chars) =>
      ghost var before := res[..];
      it' := Copy(ToBytes(|chars|, SIZE_OF_LENGTH), res, it);
      ghost var mid := res[..];
      it' := Copy(chars, res, it');
      WroteMore(before, mid, res[..], it, ToBytes(|chars|, SIZE_OF_LENGTH), chars);
    case List(elems) => it' := SerializeList(elems, res, it);
    case Tuple(fields) => it' := SerializeTuple(fields, res, it);
  }

  method SerializeList(elems: seq<Value>, res: array<Byte>, it: nat) returns (it': nat)
    requires it + SIZE_OF_LENGTH + |EncodeAll(elems)| <= res.Length
    modifies res
    ensures it' == it + SIZE_OF_LENGTH + |EncodeAll(elems)|
    ensures Wrote(old(res[..]), res[..], it, ToBytes(|elems|, SIZE_OF_LENGTH) + EncodeAll(elems))
    decreases elems
  {
    ghost var before := res[..];
    var header := ToBytes(|elems|, SIZE_OF_LENGTH);
    it' := Copy(header, res, it);
    assert header + EncodeAll(elems[..0]) == header;
    for i := 0 to |elems|
      invariant it' == it + SIZE_OF_LENGTH + |EncodeAll(elems[..i])|
      invariant Wrote(before, res[..], it, header + EncodeAll(elems[..i]))
    {
      EncodeAllSnoc(elems, i);
      ghost var mid := res[..];
      it' := Serializer(elems[i], res, it');
      WroteMore(before, mid, res[..], it, header + EncodeAll(elems[..i]), Encode(elems[i]));
      Concat3(header, EncodeAll(elems[..i]), Encode(elems[i]));
    }
    assert elems[..|elems|] == elems;
  }

  method SerializeTuple(fs: Fields, res: array<Byte>, it: nat) returns (it': nat)
    requires it + |EncodeFields(fs)| <= res.Length
    modifies res
    ensures it' == it + |EncodeFields(fs)| && Wrote(old(res[..]), res[..], it, EncodeFields(fs))
    decreases fs
  {
    match fs
    case LastField(v) => it' := Serializer(v, res, it);
    case MoreFields(v, rest) =>
      ghost var before := res[..];
      it' := Serializer(v, res, it);
      ghost var mid := res[..];
      it' := SerializeTuple(rest, res, it');
      WroteMore(before, mid, res[..], it, Encode(v), EncodeFields(rest));
  }

  /** Appends the format of `v`: the vector grows by the computed size, which the iterator fills exactly. */
  method Serialize(v: Value, res: array<Byte>) returns (res': array<Byte>)
    ensures fresh(res') && res'[..] == res[..] + Encode(v)
  {
    SizeExact(v);
    var offset, size := res.Length, Size(v);
    res' := new Byte[offset + size](i => 0);
    forall i | 0 <= i < offset { res'[i] := res[i]; }
    ghost var grown := res'[..];
    var it := Serializer(v, res', offset);
    assert it == offset + size == res'.Length;
    assert grown[..offset] == res[..] && grown[offset + |Encode(v)|..] == [];
  }

  /* ---- deserializing ---- */

  method DeserializeBytes(n: nat, bs: seq<Byte>, begin: nat) returns (r: Option<seq<Byte>>, begin': nat)
    requires begin <= |bs|
    ensures match Take(n, bs[begin..])
            case None => r.None?
            case Some(d) => r == Some(d.value) && begin' <= |bs| && d.rest == bs[begin'..]
  {
    begin' := begin;
    var val := [];
    while |val| < n
      invariant |val| <= n && begin' == begin + |val| <= |bs| && val == bs[begin..begin']
      decreases n - |val|
    {
      if begin' + 1 > |bs| { return None, begin'; }
      val := val + [bs[begin']];
      begin' := begin' + 1;
    }
    assert bs[begin..][..n] == val && bs[begin..][n..] == bs[begin'..];
    r := Some(val);
  }

  method DeserializeLength(bs: seq<Byte>, begin: nat) returns (r: Option<nat>, begin': nat)
    requires begin <= |bs|
    ensures match DecodeLength(bs[begin..])
            case None => r.None?
            case Some(d) => r == Some(d.value) && begin' <= |bs| && d.rest == bs[begin'..]
  {
    var bytes;
    bytes, begin' := DeserializeBytes(SIZE_OF_LENGTH, bs, begin);
    r := if bytes.None? then None else Some(FromBytes(bytes.value));
  }

  /** Reads a value of type `t` at the cursor and moves the cursor behind it. */
  method Deserialize(t: Type, bs: seq<Byte>, begin: nat) returns (r: Option<Value>, begin': nat)
    requires begin <= |bs|
    ensures match Decode(t, bs[begin..])
            case None => r.None?
            case Some(d) => r == Some(d.value) && begin' <= |bs| && d.rest == bs[begin'..]
    decreases t, 0
  {
    match t
    case Scalar(size) =>
      var bytes;
      bytes, begin' := DeserializeBytes(size, bs, begin);
      r := if bytes.None? then None else Some(Bits(bytes.value));
    case Str =>
      var size;
      size, begin' := DeserializeLength(bs, begin);
      if size.None? { return None, begin'; }
      var chars;
      chars, begin' := DeserializeBytes(size.value, bs, begin');
      r := if chars.None? then None else Some(Text(chars.value));
    case Vec(elem) =>
      var size;
      size, begin' := DeserializeLength(bs, begin);
      if size.None? { return None, begin'; }
      var elems;
      elems, begin' := DeserializeList(elem, size.value, bs, begin');
      r := if elems.None? then None else Some(List(elems.value));
    case Tup(types) =>
      var fields;
      fields, begin' := DeserializeTuple(types, bs, begin);
      r := if fields.None? then None else Some(Tuple(fields.value));
  }

  /** What is left to decode, behind the elements decoded already. */
  function Behind(done: seq<Value>, rest: Option<Decoded<seq<Value>>>): Option<Decoded<seq<Value>>> {
    match rest
    case None => None
    case Some(d) => Some(Decoded(done + d.value, d.rest))
  }

  lemma {:induction false} BehindNothing(rest: Option<Decoded<seq<Value>>>)
    ensures Behind([], rest) == rest
  {
    if rest.Some? { assert [] + rest.value.value == rest.value.value; }
  }

  lemma {:induction false} BehindOne(done: seq<Value>, elem: Type, n: nat, bs: seq<Byte>)
    requires n > 0
    ensures match Decode(elem, bs)
            case None => Behind(done, DecodeAll(elem, n, bs)).None?
            case Some(first) =>
              Behind(done, DecodeAll(elem, n, bs)) == Behind(done + [first.value], DecodeAll(elem, n - 1, first.rest))
  {
    if Decode(elem, bs).Some? {
      var first := Decode(elem, bs).value;
      var more := DecodeAll(elem, n - 1, first.rest);
      if more.Some? {
        assert done + ([first.value] + more.value.value) == (done + [first.value]) + more.value.value;
      }
    }
  }

  method DeserializeList(elem: Type, size: nat, bs: seq<Byte>, begin: nat) returns (r: Option<seq<Value>>, begin': nat)
    requires begin <= |bs|
    ensures match DecodeAll(elem, size, bs[begin..])
            case None => r.None?
            case Some(d) => r == Some(d.value) && begin' <= |bs| && d.rest == bs[begin'..]
    decreases elem, 1
  {
    var vect: seq<Value> := [];
    begin' := begin;
    BehindNothing(DecodeAll(elem, size, bs[begin..]));
    while |vect| < size
      invariant |vect| <= size && begin' <= |bs|
      invariant DecodeAll(elem, size, bs[begin..]) == Behind(vect, DecodeAll(elem, size - |vect|, bs[begin'..]))
      decreases size - |vect|
    {
      BehindOne(vect, elem, size - |vect|, bs[begin'..]);
      var x;
      x, begin' := Deserialize(elem, bs, begin');
      if x.None? { return None, begin'; }
      vect := vect + [x.value];
    }
    assert vect + [] == vect;
    r := Some(vect);
  }

  method DeserializeTuple(ts: Types, bs: seq<Byte>, begin: nat) returns (r: Option<Fields>, begin': nat)
    requires begin <= |bs|
    ensures match DecodeFields(ts, bs[begin..])
            case None => r.None?
            case Some(d) => r == Some(d.value) && begin' <= |bs| && d.rest == bs[begin'..]
    decreases ts, 0
  {
    var v;
    v, begin' := Deserialize(ts.t, bs, begin);
    if v.None? { return None, begin'; }
    match ts
    case LastType(_) => r := Some(LastField(v.value));
    case MoreTypes(_, rest) =>
      var more;
      more, begin' := DeserializeTuple(rest, bs, begin');
      r := if more.None? then None else Some(MoreFields(v.value, more.value));
  }
}
