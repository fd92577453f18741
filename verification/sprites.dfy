/**
 * SpriteBatcher: collects sprites, four vertices of four floats each (x, y,
 * u, v), into one vertex buffer and draws them as two triangles per sprite
 * through a fixed index list.
 */
module Sprites {

  /** Java's narrowing cast to short: the value modulo 2^16, read as signed. */
  function ToShort(v: int): int {
    (v + 32768) % 65536 - 32768
  }

  /** The cast lands in the range of a short and keeps the value modulo 2^16. */
  lemma ToShortCast(v: int)
    ensures -32768 <= ToShort(v) < 32768
    ensures ToShort(v) % 65536 == v % 65536
  {
  }

  /** Casting a short sum to short is casting the exact sum. */
  lemma ToShortOfSum(a: int, d: int)
    ensures ToShort(ToShort(a) + d) == ToShort(a + d)
  {
    var m := (a + 32768) % 65536;
    var q := (a + 32768) / 65536;
    assert a + 32768 == q * 65536 + m;
    assert ToShort(a) + d + 32768 == (a + d + 32768) - q * 65536;
    ModShift(a + d + 32768, q);
  }

  lemma ModShift(x: int, q: int)
    ensures (x - q * 65536) % 65536 == x % 65536
  {
    var r := x % 65536;
    var p := x / 65536;
    assert x - q * 65536 == (p - q) * 65536 + r;
  }

  /** Values that already are shorts are left alone by the cast. */
  lemma ToShortSmall(v: int)
    requires -32768 <= v < 32768
    ensures ToShort(v) == v
  {
  }

  /** The vertices of the two triangles of a sprite: 0 1 2 and 2 3 0. */
  const CORNERS: seq<int> := [0, 1, 2, 2, 3, 0]

  /** The index the fill loop stores at position m: vertex CORNERS[m % 6] of sprite m / 6, cast to short. */
  function IndexAt(m: nat): int {
    ToShort(4 * (m / 6) + CORNERS[m % 6])
  }

  /** The corners of a region of the texture, in texture coordinates. */
  datatype TextureRegion = TextureRegion(u1: real, v1: real, u2: real, v2: real)

  /** One batched sprite: centre, size and the region it shows. */
  datatype Sprite = Sprite(x: real, y: real, width: real, height: real, region: TextureRegion)

  /** The low and the high edge of a span of the given size centred on c. */
  function Low(c: real, size: real): real {
    c - size / 2.0
  }

  function High(c: real, size: real): real {
    c + size / 2.0
  }

  /** The sixteen floats the axis-aligned draw writes for a sprite. */
  function Quad(s: Sprite): (q: seq<real>)
    ensures |q| == 16
  {
    var x1, y1 := Low(s.x, s.width), Low(s.y, s.height);
    var x2, y2 := High(s.x, s.width), High(s.y, s.height);
    var t := s.region;
    [x1, y1, t.u1, t.v2,
     x2, y1, t.u2, t.v2,
     x2, y2, t.u2, t.v1,
     x1, y2, t.u1, t.v1]
  }

  /** Vertex k of a quad: position and texture coordinate. */
  function Vertex(q: seq<real>, k: nat): (real, real, real, real)
    requires |q| == 16 && k < 4
  {
    (q[4 * k], q[4 * k + 1], q[4 * k + 2], q[4 * k + 3])
  }

  /**
   * The quad is the sprite's rectangle centred on the sprite, its vertices
   * in order around it from (x1, y1); vertices on the same vertical edge
   * share the u of the region's edge, vertices on the same horizontal edge
   * share the v, with v2 at the lower y.
   */
  lemma QuadIsSpriteRectangle(s: Sprite)
    ensures var q := Quad(s);
      Vertex(q, 1).0 - Vertex(q, 0).0 == s.width && Vertex(q, 3).1 - Vertex(q, 0).1 == s.height &&
      (Vertex(q, 0).0 + Vertex(q, 1).0) / 2.0 == s.x && (Vertex(q, 0).1 + Vertex(q, 3).1) / 2.0 == s.y &&
      Vertex(q, 2).0 == Vertex(q, 1).0 && Vertex(q, 3).0 == Vertex(q, 0).0 &&
      Vertex(q, 1).1 == Vertex(q, 0).1 && Vertex(q, 2).1 == Vertex(q, 3).1 &&
      Vertex(q, 0).2 == Vertex(q, 3).2 == s.region.u1 && Vertex(q, 1).2 == Vertex(q, 2).2 == s.region.u2 &&
      Vertex(q, 0).3 == Vertex(q, 1).3 == s.region.v2 && Vertex(q, 2).3 == Vertex(q, 3).3 == s.region.v1
  {
  }

  /** The floats of a batch of sprites, one quad after the other. */
  function Flatten(batch: seq<Sprite>): (vs: seq<real>)
    ensures |vs| == 16 * |batch|
  {
    if batch == [] then [] else Flatten(batch[..|batch| - 1]) + Quad(batch[|batch| - 1])
  }

  /** Sprite k of a batch owns the floats 16k .. 16k + 15 of the buffer. */
  lemma {:induction false} FlattenAt(batch: seq<Sprite>, k: nat)
    requires k < |batch|
    ensures Flatten(batch)[16 * k .. 16 * k + 16] == Quad(batch[k])
  {
    var n := |batch| - 1;
    var front, last := Flatten(batch[..n]), Quad(batch[n]);
    assert Flatten(batch) == front + last;
    if k < n {
      FlattenAt(batch[..n], k);
      assert batch[..n][k] == batch[k];
      assert (front + last)[16 * k .. 16 * k + 16] == front[16 * k .. 16 * k + 16];
    } else {
      assert (front + last)[16 * k .. 16 * k + 16] == last;
    }
  }

  /** The index fill of the constructor: six indices per sprite, the j of the source stepping by 4 as a short. */
  method FillIndices(indices: array<int>)
    requires indices.Length % 6 == 0
    modifies indices
    ensures forall m :: 0 <= m < indices.Length ==> indices[m] == IndexAt(m)
  {
    ghost var n := indices.Length / 6;
    ghost var k := 0;
    var i := 0;
    var j := 0;
    while i < indices.Length
      invariant 0 <= k <= n && i == 6 * k && indices.Length == 6 * n
      invariant j == ToShort(4 * k)
      invariant forall m :: 0 <= m < i ==> indices[m] == IndexAt(m)
      decreases indices.Length - i
    {
      FillStep(i, k, j);
      indices[i + 0] := ToShort(j + 0);
      indices[i + 1] := ToShort(j + 1);
      indices[i + 2] := ToShort(j + 2);
      indices[i + 3] := ToShort(j + 2);
      indices[i + 4] := ToShort(j + 3);
      indices[i + 5] := ToShort(j + 0);
      i, j := i + 6, ToShort(j + 4);
      k := k + 1;
    }
  }

  /** One round of the fill loop stores the six indices of sprite k and steps j to the next sprite. */
  lemma FillStep(i: nat, k: nat, j: int)
    requires i == 6 * k && j == ToShort(4 * k)
    ensures ToShort(j + 0) == IndexAt(i) && ToShort(j + 1) == IndexAt(i + 1)
    ensures ToShort(j + 2) == IndexAt(i + 2) && ToShort(j + 2) == IndexAt(i + 3)
    ensures ToShort(j + 3) == IndexAt(i + 4) && ToShort(j + 0) == IndexAt(i + 5)
    ensures ToShort(j + 4) == ToShort(4 * (k + 1))
  {
    assert i / 6 == k && (i + 1) / 6 == k && (i + 2) / 6 == k && (i + 3) / 6 == k && (i + 4) / 6 == k && (i + 5) / 6 == k;
    ToShortOfSum(4 * k, 0);
    ToShortOfSum(4 * k, 1);
    ToShortOfSum(4 * k, 2);
    ToShortOfSum(4 * k, 3);
    ToShortOfSum(4 * k, 4);
  }

  /**
   * Read as unsigned 16-bit numbers, the indices are the intended vertex
   * numbers 4k, 4k+1, 4k+2, 4k+2, 4k+3, 4k as long as 4 * capacity <= 65536;
   * read as signed shorts they are as long as 4 * capacity <= 32768.
   */
  lemma IndicesPattern(capacity: nat, k: nat, c: nat)
    requires k < capacity && c < 6
    ensures 4 * capacity <= 65536 ==> IndexAt(6 * k + c) % 65536 == 4 * k + CORNERS[c]
    ensures 4 * capacity <= 32768 ==> IndexAt(6 * k + c) == 4 * k + CORNERS[c]
  {
    assert (6 * k + c) / 6 == k && (6 * k + c) % 6 == c;
    var v := 4 * k + CORNERS[c];
    assert 0 <= v < 4 * capacity;
    ToShortCast(v);
    if 4 * capacity <= 32768 {
      ToShortSmall(v);
    }
  }

  /** The buffer after one vertex's four writes from slot b: position, then texture coordinate. */
  function PutFour(buffer: seq<real>, b: nat, px: real, py: real, u: real, v: real): (r: seq<real>)
    requires b + 4 <= |buffer|
    ensures |r| == |buffer|
  {
    buffer[b := px][b + 1 := py][b + 2 := u][b + 3 := v]
  }

  /** The buffer after the draw's sixteen writes from slot b, in the order the source makes them. */
  function Written(before: seq<real>, b: nat, s: Sprite): seq<real>
    requires b + 16 <= |before|
  {
    var x1, y1 := Low(s.x, s.width), Low(s.y, s.height);
    var x2, y2 := High(s.x, s.width), High(s.y, s.height);
    var t := s.region;
    PutFour(PutFour(PutFour(PutFour(before, b, x1, y1, t.u1, t.v2), b + 4, x2, y1, t.u2, t.v2),
      b + 8, x2, y2, t.u2, t.v1), b + 12, x1, y2, t.u1, t.v1)
  }

  /** The four writes of one vertex. */
  method PutVertex(buffer: array<real>, b: nat, px: real, py: real, u: real, v: real)
    requires b + 4 <= buffer.Length
    modifies buffer
    ensures buffer[..] == PutFour(old(buffer[..]), b, px, py, u, v)
  {
    buffer[b] := px;
    buffer[b + 1] := py;
    buffer[b + 2] := u;
    buffer[b + 3] := v;
  }

  /** The sixteen writes of the axis-aligned draw: the four corners, counter-clockwise from the bottom left. */
  method PutQuad(buffer: array<real>, b: nat, s: Sprite)
    requires b + 16 <= buffer.Length
    modifies buffer
    ensures buffer[..] == old(buffer[..b]) + Quad(s) + old(buffer[b + 16..])
    ensures buffer[..b + 16] == old(buffer[..b]) + Quad(s)
  {
    var x1, y1 := Low(s.x, s.width), Low(s.y, s.height);
    var x2, y2 := High(s.x, s.width), High(s.y, s.height);
    var t := s.region;
    ghost var before := buffer[..];
    PutVertex(buffer, b, x1, y1, t.u1, t.v2);
    PutVertex(buffer, b + 4, x2, y1, t.u2, t.v2);
    PutVertex(buffer, b + 8, x2, y2, t.u2, t.v1);
    PutVertex(buffer, b + 12, x1, y2, t.u1, t.v1);
    assert buffer[..] == Written(before, b, s);
    Splice(before, b, s);
  }

  /** The sixteen writes replace exactly the slots b .. b + 15, with the sprite's quad. */
  lemma Splice(before: seq<real>, b: nat, s: Sprite)
    requires b + 16 <= |before|
    ensures Written(before, b, s) == before[..b] + Quad(s) + before[b + 16..]
    ensures Written(before, b, s)[..b + 16] == before[..b] + Quad(s)
  {
  }

  class SpriteBatcher {
    const capacity: nat
    /** Four vertices per sprite, four floats per vertex. */
    const verticesBuffer: array<real>
    /** The index list handed to the vertex object; the source keeps it only there. */
    const indices: array<int>
    var bufferIndex: nat
    var spriteAmount: nat
    /** The sprites drawn since the batch began. */
    ghost var batch: seq<Sprite>

    ghost predicate Valid()
      reads this, verticesBuffer
    {
      verticesBuffer.Length == 16 * capacity && indices.Length == 6 * capacity &&
      spriteAmount <= capacity && bufferIndex == 16 * spriteAmount && |batch| == spriteAmount &&
      verticesBuffer[..bufferIndex] == Flatten(batch)
    }

    constructor (capacity: nat)
      ensures Valid() && this.capacity == capacity && batch == []
      ensures fresh(verticesBuffer) && fresh(indices)
      ensures forall m :: 0 <= m < indices.Length ==> indices[m] == IndexAt(m)
    {
      this.capacity := capacity;
      verticesBuffer := new real[capacity * 4 * 4];
      bufferIndex, spriteAmount := 0, 0;
      batch := [];
      indices := new int[capacity * 6];
      new;
      FillIndices(indices);
    }

    /** beginBatch: an empty batch (binding the texture is not modelled). */
    method BeginBatch()
      requires Valid()
      modifies this`bufferIndex, this`spriteAmount, this`batch
      ensures Valid() && batch == [] && bufferIndex == 0 && spriteAmount == 0
    {
      bufferIndex := 0;
      spriteAmount := 0;
      batch := [];
    }

    /**
     * The axis-aligned draw: writes the sprite's quad into the sixteen slots
     * after the ones in use and nothing else, and counts the sprite.
     */
    method Draw(x: real, y: real, width: real, height: real, texRegion: TextureRegion)
      requires Valid() && spriteAmount < capacity
      modifies verticesBuffer, this`bufferIndex, this`spriteAmount, this`batch
      ensures Valid()
      ensures batch == old(batch) + [Sprite(x, y, width, height, texRegion)]
      ensures spriteAmount == old(spriteAmount) + 1 && bufferIndex == old(bufferIndex) + 16
      ensures verticesBuffer[..] == old(verticesBuffer[..bufferIndex]) + Quad(Sprite(x, y, width, height, texRegion))
                                    + old(verticesBuffer[bufferIndex + 16..])
    {
      var s := Sprite(x, y, width, height, texRegion);
      var b := bufferIndex;
      PutQuad(verticesBuffer, b, s);
      assert (batch + [s])[..|batch|] == batch;
      bufferIndex := b + 16;
      spriteAmount := spriteAmount + 1;
      batch := batch + [s];
    }

    /** renderBatch: the floats in use and the number of indices to draw, six per sprite. */
    method RenderBatch() returns (vertexData: seq<real>, indexCount: nat)
      requires Valid()
      ensures vertexData == Flatten(batch) && indexCount == 6 * |batch|
    {
      vertexData := verticesBuffer[..bufferIndex];
      indexCount := spriteAmount * 6;
    }
  }
}
