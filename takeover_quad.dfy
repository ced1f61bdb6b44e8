/**
 * The vertex layout of the takeover quad: the attribute list `attr` grows,
 * the stride `get_stride` folds from it, and the calls `enable_attrs` makes
 * to OpenGL, recorded in order instead of issued. Arithmetic is on `u32`
 * and wraps as in an optimised build; `as i32` casts are written out.
 */
module TakeoverQuad {

  const U32_LIMIT: nat := 0x1_0000_0000
  const I32_LIMIT: nat := 0x8000_0000

  /** `GL_FLOAT`. */
  const GL_FLOAT: uint32 := 0x1406

  type uint32 = n: nat | n < U32_LIMIT

  /** `n as u32` for a wider unsigned value: the low 32 bits. */
  function WrapU32(n: nat): uint32
  {
    n % U32_LIMIT
  }

  /** `n as i32` for a `u32`: the same bits read as two's complement. */
  function AsI32(n: uint32): (r: int)
    ensures -(I32_LIMIT as int) <= r < I32_LIMIT
    ensures n < I32_LIMIT ==> r == n
    ensures r < 0 ==> r + U32_LIMIT == n
  {
    if n < I32_LIMIT then n else n - U32_LIMIT
  }

  datatype Attribute = Attribute(index: uint32, elemSize: uint32, elemCount: uint32, kind: uint32)

  /** The OpenGL calls `enable_attrs` makes. */
  datatype GlCall =
    | VertexAttribPointer(index: uint32, size: int, kind: uint32, normalized: bool, stride: int, offset: uint32)
    | EnableVertexAttribArray(index: uint32)

  /** What one attribute takes up in a vertex, without wrapping. */
  function Bytes(a: Attribute): nat
  {
    a.elemSize * a.elemCount
  }

  /** The total size of `attrs`, without wrapping. */
  function TotalBytes(attrs: seq<Attribute>): nat
  {
    if attrs == [] then 0 else TotalBytes(attrs[..|attrs| - 1]) + Bytes(attrs[|attrs| - 1])
  }

  lemma {:induction false} TotalBytesCons(a: Attribute, rest: seq<Attribute>)
    ensures TotalBytes([a] + rest) == Bytes(a) + TotalBytes(rest)
  {
    if rest != [] {
      var init := rest[..|rest| - 1];
      assert ([a] + rest)[..|rest|] == [a] + init;
      TotalBytesCons(a, init);
    }
  }

  /** A prefix takes up no more than the whole. */
  lemma {:induction false} TotalBytesPrefix(attrs: seq<Attribute>, i: nat)
    requires i <= |attrs|
    ensures TotalBytes(attrs[..i]) <= TotalBytes(attrs)
  {
    if i < |attrs| {
      assert attrs[..|attrs| - 1][..i] == attrs[..i];
      TotalBytesPrefix(attrs[..|attrs| - 1], i);
    } else {
      assert attrs[..i] == attrs;
    }
  }

  lemma ModAddLeft(x: nat, y: nat)
    ensures (x % U32_LIMIT + y) % U32_LIMIT == (x + y) % U32_LIMIT
  {
    var q := x / U32_LIMIT;
    assert x == q * U32_LIMIT + x % U32_LIMIT;
    ModMultipleAdd(q, x % U32_LIMIT + y);
  }

  lemma ModMultipleAdd(q: nat, z: nat)
    ensures (q * U32_LIMIT + z) % U32_LIMIT == z % U32_LIMIT
  {
    if q > 0 {
      ModMultipleAdd(q - 1, z);
      assert q * U32_LIMIT + z == (q - 1) * U32_LIMIT + z + U32_LIMIT;
    }
  }

  /** The fold of `get_stride`: `acc + elem_size * elem_count` over the list, every step in `u32`. */
  function FoldStride(attrs: seq<Attribute>, acc: uint32): (r: uint32)
    ensures r == (acc + TotalBytes(attrs)) % U32_LIMIT
  {
    if attrs == [] then acc
    else
      FoldStep(attrs, acc);
      FoldStride(attrs[1..], WrapU32(acc + WrapU32(Bytes(attrs[0]))))
  }

  /** One step of the fold keeps the accumulator equal to the running total, in `u32`. */
  lemma FoldStep(attrs: seq<Attribute>, acc: uint32)
    requires attrs != []
    ensures (WrapU32(acc + WrapU32(Bytes(attrs[0]))) + TotalBytes(attrs[1..])) % U32_LIMIT
         == (acc + TotalBytes(attrs)) % U32_LIMIT
  {
    TotalBytesCons(attrs[0], attrs[1..]);
    assert [attrs[0]] + attrs[1..] == attrs;
    ModAddLeft(Bytes(attrs[0]), acc);
    ModAddLeft(acc + Bytes(attrs[0]), TotalBytes(attrs[1..]));
  }

  /** The offset `enable_attrs` has reached at attribute `i`: the size of those before it, in `u32`. */
  function OffsetAt(attrs: seq<Attribute>, i: nat): uint32
    requires i <= |attrs|
  {
    WrapU32(TotalBytes(attrs[..i]))
  }

  /** Each offset is the one before it plus the size of the attribute in between, in `u32`. */
  lemma {:induction false} OffsetAdvance(attrs: seq<Attribute>, i: nat)
    requires i < |attrs|
    ensures OffsetAt(attrs, i + 1) == WrapU32(OffsetAt(attrs, i) + WrapU32(Bytes(attrs[i])))
  {
    assert attrs[..i + 1][..i] == attrs[..i];
    assert TotalBytes(attrs[..i + 1]) == TotalBytes(attrs[..i]) + Bytes(attrs[i]);
    ModAddLeft(TotalBytes(attrs[..i]), Bytes(attrs[i]));
    ModAddLeft(Bytes(attrs[i]), OffsetAt(attrs, i));
  }

  /** What `Quad::new`'s attribute callback asks for, one `attr::<T>` call each. */
  datatype AttrRequest = AttrRequest(index: uint32, elemCount: uint32, kind: uint32, typeSize: nat)

  class Quad {
    var attributes: seq<Attribute>
    var indexCount: int

    /** `Quad::new` before its callback runs: no attributes, and the index count `indices.len() as i32`. */
    constructor (indices: seq<uint32>)
      ensures attributes == []
      ensures indexCount == AsI32(WrapU32(|indices|))
    {
      attributes := [];
      indexCount := AsI32(WrapU32(|indices|));
    }

    /** `attr::<T>`: appends one attribute whose element size is `size_of::<T>() as u32`. */
    method Attr(index: uint32, elemCount: uint32, kind: uint32, typeSize: nat)
      modifies this`attributes
      ensures attributes == old(attributes) + [Attribute(index, WrapU32(typeSize), elemCount, kind)]
    {
      attributes := attributes + [Attribute(index, WrapU32(typeSize), elemCount, kind)];
    }

    /** `get_stride`: the total size of the attributes, in `u32`. */
    function GetStride(): (stride: uint32)
      reads this
      ensures stride == TotalBytes(attributes) % U32_LIMIT
    {
      FoldStride(attributes, 0)
    }

    /**
     * `enable_attrs`: for each attribute in order, a pointer call with the
     * attribute's index, its element size as the size argument, the common
     * stride and the running offset, then the enable call for its index.
     */
    method EnableAttrs() returns (calls: seq<GlCall>)
      ensures |calls| == 2 * |attributes|
      ensures forall i :: 0 <= i < |attributes| ==>
        calls[2 * i] == VertexAttribPointer(attributes[i].index, AsI32(attributes[i].elemSize), attributes[i].kind,
                                            false, AsI32(GetStride()), OffsetAt(attributes, i))
      ensures forall i :: 0 <= i < |attributes| ==> calls[2 * i + 1] == EnableVertexAttribArray(attributes[i].index)
    {
      var offset: uint32 := 0;
      var stride := GetStride();
      calls := [];
      for n := 0 to |attributes|
        invariant |calls| == 2 * n
        invariant offset == OffsetAt(attributes, n)
        invariant forall i :: 0 <= i < n ==>
          calls[2 * i] == VertexAttribPointer(attributes[i].index, AsI32(attributes[i].elemSize), attributes[i].kind,
                                              false, AsI32(stride), OffsetAt(attributes, i))
        invariant forall i :: 0 <= i < n ==> calls[2 * i + 1] == EnableVertexAttribArray(attributes[i].index)
      {
        var attr := attributes[n];
        calls := calls + [VertexAttribPointer(attr.index, AsI32(attr.elemSize), attr.kind, false, AsI32(stride), offset),
                          EnableVertexAttribArray(attr.index)];
        OffsetAdvance(attributes, n);
        offset := WrapU32(offset + WrapU32(Bytes(attr)));
      }
    }

    /**
     * `Quad::new`: the attributes the callback adds, in order, then
     * `enable_attrs`. The vertex, element and array objects are not modelled.
     */
    static method New(indices: seq<uint32>, requests: seq<AttrRequest>) returns (quad: Quad, calls: seq<GlCall>)
      ensures quad.indexCount == AsI32(WrapU32(|indices|))
      ensures |quad.attributes| == |requests|
      ensures forall i :: 0 <= i < |requests| ==>
        quad.attributes[i] == Attribute(requests[i].index, WrapU32(requests[i].typeSize), requests[i].elemCount, requests[i].kind)
      ensures |calls| == 2 * |requests|
      ensures forall i :: 0 <= i < |requests| ==>
        calls[2 * i] == VertexAttribPointer(requests[i].index, AsI32(WrapU32(requests[i].typeSize)), requests[i].kind,
                                            false, AsI32(quad.GetStride()), OffsetAt(quad.attributes, i))
      ensures forall i :: 0 <= i < |requests| ==> calls[2 * i + 1] == EnableVertexAttribArray(requests[i].index)
    {
      quad := new Quad(indices);
      for n := 0 to |requests|
        invariant |quad.attributes| == n
        invariant quad.indexCount == AsI32(WrapU32(|indices|))
        invariant forall i :: 0 <= i < n ==>
          quad.attributes[i] == Attribute(requests[i].index, WrapU32(requests[i].typeSize), requests[i].elemCount, requests[i].kind)
      {
        quad.Attr(requests[n].index, requests[n].elemCount, requests[n].kind, requests[n].typeSize);
      }
      calls := quad.EnableAttrs();
    }
  }

  /**
   * Whatever the sizes, the offset `enable_attrs` reaches after the last
   * attribute is the stride `get_stride` computes: both wrap the same total.
   */
  lemma {:induction false} FinalOffsetIsStride(attrs: seq<Attribute>)
    ensures OffsetAt(attrs, |attrs|) == TotalBytes(attrs) % U32_LIMIT
    ensures OffsetAt(attrs, |attrs|) == FoldStride(attrs, 0)
  {
    assert attrs[..|attrs|] == attrs;
  }

  /**
   * Without wrap-around, the offsets are the exact sizes of the attributes
   * before each one, none passes the stride, and the offset reached after
   * the last attribute is the stride.
   */
  lemma {:induction false} OffsetsWithinStride(attrs: seq<Attribute>, i: nat)
    requires TotalBytes(attrs) < U32_LIMIT
    requires i <= |attrs|
    ensures OffsetAt(attrs, i) == TotalBytes(attrs[..i])
    ensures OffsetAt(attrs, i) <= TotalBytes(attrs) % U32_LIMIT
    ensures i == |attrs| ==> OffsetAt(attrs, i) == TotalBytes(attrs) % U32_LIMIT
  {
    TotalBytesPrefix(attrs, i);
    assert attrs[..|attrs|] == attrs;
  }


  /**
   * The image renderer's quad: two `f32` pairs (position, texture position)
   * give a 16-byte stride and offsets 0 and 8, and the size argument passed is
   * the element size 4, not the component count 2.
   */
  method ImageQuad() returns (quad: Quad, calls: seq<GlCall>)
    ensures quad.indexCount == 6
    ensures calls == [VertexAttribPointer(0, 4, GL_FLOAT, false, 16, 0), EnableVertexAttribArray(0),
                      VertexAttribPointer(1, 4, GL_FLOAT, false, 16, 8), EnableVertexAttribArray(1)]
  {
    quad, calls := Quad.New([0, 2, 1, 0, 3, 2], [AttrRequest(0, 2, GL_FLOAT, 4), AttrRequest(1, 2, GL_FLOAT, 4)]);
    var attrs := quad.attributes;
    assert attrs[..0] == [] && attrs[..1] == [attrs[0]] && attrs[..2] == attrs;
    assert TotalBytes([attrs[0]]) == 8;
    assert TotalBytes(attrs) == 16;
    assert |calls| == 4;
    assert calls[0] == VertexAttribPointer(0, 4, GL_FLOAT, false, 16, 0);
    assert calls[2] == VertexAttribPointer(1, 4, GL_FLOAT, false, 16, 8);
    assert calls[1] == EnableVertexAttribArray(0);
    assert calls[3] == calls[2 * 1 + 1];
  }
}
