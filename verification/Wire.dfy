/**
 Fixed-width big-endian integers and record layouts in network byte order:
 the part of the struct module that the wire formats rest on.
 A layout lists field widths in bytes ("!QHB" is Field(8, Field(2, Field(1, End)))).
 */
module Wire {
  type byte = x: int | 0 <= x < 256
  type bytes = seq<byte>

  lemma ConcatAssoc(a: bytes, b: bytes, c: bytes)
    ensures a + b + c == a + (b + c)
  {
  }

  function Pow256(w: nat): (p: nat)
    ensures p >= 1
  {
    if w == 0 then 1 else 256 * Pow256(w - 1)
  }

  function PackInt(w: nat, v: nat): (bs: bytes)
    ensures |bs| == w
  {
    if w == 0 then [] else PackInt(w - 1, v / 256) + [v % 256]
  }

  function UnpackInt(bs: bytes): (v: nat)
    ensures v < Pow256(|bs|)
  {
    if |bs| == 0 then 0 else UnpackInt(bs[..|bs| - 1]) * 256 + bs[|bs| - 1]
  }

  /** Reading back what was written gives the number, for every number that fits. */
  lemma {:induction false} UnpackPackInt(w: nat, v: nat)
    requires v < Pow256(w)
    ensures UnpackInt(PackInt(w, v)) == v
  {
    if w > 0 {
      UnpackPackInt(w - 1, v / 256);
      var bs := PackInt(w, v);
      assert bs[..|bs| - 1] == PackInt(w - 1, v / 256);
    }
  }

  /** Every byte string is the encoding of the number it reads as. */
  lemma {:induction false} PackUnpackInt(bs: bytes)
    ensures PackInt(|bs|, UnpackInt(bs)) == bs
  {
    if |bs| > 0 {
      var init := bs[..|bs| - 1];
      PackUnpackInt(init);
      assert UnpackInt(bs) / 256 == UnpackInt(init);
      assert UnpackInt(bs) % 256 == bs[|bs| - 1];
      assert init + [bs[|bs| - 1]] == bs;
    }
  }

  /** The field widths of a record. */
  datatype Layout = End | Field(width: nat, rest: Layout)

  /** A record: each field's width and value. */
  datatype Record = Nil | Cons(width: nat, value: nat, rest: Record)

  function Size(layout: Layout): nat
  {
    match layout
    case End => 0
    case Field(w, rest) => w + Size(rest)
  }

  function Arity(layout: Layout): nat
  {
    match layout
    case End => 0
    case Field(_, rest) => 1 + Arity(rest)
  }

  function Shape(r: Record): Layout
  {
    match r
    case Nil => End
    case Cons(w, _, rest) => Field(w, Shape(rest))
  }

  predicate Fits(r: Record)
  {
    match r
    case Nil => true
    case Cons(w, v, rest) => v < Pow256(w) && Fits(rest)
  }

  /** Puts one field in front of a record. */
  function Push(w: nat, v: nat, r: Record): (r': Record)
    requires v < Pow256(w) && Fits(r)
    ensures r'.Cons? && r'.rest == r && r'.value == v
    ensures Fits(r') && Shape(r') == Field(w, Shape(r))
  {
    Cons(w, v, r)
  }

  /** The value of field i, and 0 beyond the last one. */
  function At(r: Record, i: nat): nat
    decreases i
  {
    if r.Nil? then 0 else if i == 0 then r.value else At(r.rest, i - 1)
  }

  function WidthAt(layout: Layout, i: nat): nat
    decreases i
  {
    if layout.End? then 0 else if i == 0 then layout.width else WidthAt(layout.rest, i - 1)
  }

  lemma {:induction false} FitsAt(r: Record, i: nat)
    requires Fits(r)
    ensures At(r, i) < Pow256(WidthAt(Shape(r), i))
    decreases i
  {
    if r.Cons? && i > 0 { FitsAt(r.rest, i - 1); }
  }

  function Pack(r: Record): (bs: bytes)
    ensures |bs| == Size(Shape(r))
  {
    match r
    case Nil => []
    case Cons(w, v, rest) => PackInt(w, v) + Pack(rest)
  }

  function Unpack(layout: Layout, buf: bytes): (r: Record)
    requires Size(layout) <= |buf|
    ensures Fits(r) && Shape(r) == layout
  {
    match layout
    case End => Nil
    case Field(w, rest) => Cons(w, UnpackInt(buf[..w]), Unpack(rest, buf[w..]))
  }

  /** A record is read back field by field, whatever follows it. */
  lemma {:induction false} UnpackPack(r: Record, tail: bytes)
    requires Fits(r)
    ensures Unpack(Shape(r), Pack(r) + tail) == r
  {
    match r
    case Nil =>
    case Cons(w, v, rest) =>
      var buf := Pack(r) + tail;
      assert buf[..w] == PackInt(w, v);
      assert buf[w..] == Pack(rest) + tail;
      UnpackPackInt(w, v);
      UnpackPack(rest, tail);
  }

  /** Writing the record read from a buffer gives the record's own bytes. */
  lemma {:induction false} PackUnpack(layout: Layout, buf: bytes)
    requires Size(layout) <= |buf|
    ensures Pack(Unpack(layout, buf)) == buf[..Size(layout)]
  {
    match layout
    case End =>
    case Field(w, rest) =>
      PackUnpackInt(buf[..w]);
      PackUnpack(rest, buf[w..]);
      assert buf[..Size(layout)] == buf[..w] + buf[w..][..Size(rest)];
  }

  /** Records of one shape that agree on every field are equal. */
  lemma {:induction false} SameFields(a: Record, b: Record, n: nat)
    requires Shape(a) == Shape(b)
    requires n >= Arity(Shape(a))
    requires forall i :: 0 <= i < n ==> At(a, i) == At(b, i)
    ensures a == b
  {
    if a.Cons? {
      assert At(a, 0) == At(b, 0);
      forall i | 0 <= i < n - 1 ensures At(a.rest, i) == At(b.rest, i) {
        assert At(a, i + 1) == At(b, i + 1);
      }
      SameFields(a.rest, b.rest, n - 1);
    }
  }

  /** Where field i starts. */
  function OffsetOf(layout: Layout, i: nat): nat
    decreases i
  {
    if i == 0 || layout.End? then 0 else layout.width + OffsetOf(layout.rest, i - 1)
  }

  /** A field of a record is the number in the bytes at its offset. */
  lemma {:induction false} FieldAtOffset(layout: Layout, buf: bytes, i: nat, from: nat, to: nat)
    requires Size(layout) <= |buf| && i < Arity(layout)
    requires from == OffsetOf(layout, i) && to == from + WidthAt(layout, i)
    ensures to <= |buf| && At(Unpack(layout, buf), i) == UnpackInt(buf[from..to])
    decreases i
  {
    hide UnpackInt;
    if i > 0 {
      var w := layout.width;
      FieldAtOffset(layout.rest, buf[w..], i - 1, from - w, to - w);
      assert buf[w..][from - w..to - w] == buf[from..to];
      assert Unpack(layout, buf).rest == Unpack(layout.rest, buf[w..]);
    }
  }

  lemma OneByte(buf: bytes, i: nat)
    requires i < |buf|
    ensures UnpackInt(buf[i..i + 1]) == buf[i]
  {
    assert buf[i..i + 1][..0] == [];
  }

  /** The first n fields are one byte wide. */
  predicate ByteFields(layout: Layout, n: nat)
    decreases n
  {
    n == 0 || (layout.Field? && layout.width == 1 && ByteFields(layout.rest, n - 1))
  }

  /** A one-byte field behind one-byte fields is the byte at its own index. */
  lemma {:induction false} ByteFieldAt(r: Record, i: nat)
    requires Fits(r) && ByteFields(Shape(r), i + 1)
    ensures i < |Pack(r)| && Pack(r)[i] == At(r, i)
    decreases i
  {
    var first := PackInt(1, r.value);
    assert Pow256(1) == 256;
    assert first[0] == r.value;
    assert Pack(r) == first + Pack(r.rest);
    if i > 0 {
      ByteFieldAt(r.rest, i - 1);
      assert Pack(r)[i] == Pack(r.rest)[i - 1];
    }
  }
}
