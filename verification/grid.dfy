/**
 * Row-major cell layout shared by the texture atlas and the bitmap font: a
 * cursor starts at (0, 0), moves right by the cell width after each cell and,
 * when the next cell would cross the right edge of the texture, returns to
 * x = 0 one cell height further down.
 */
module Grid {

  /** Cells per row: how many cells of width w fit side by side in a texture of size t (at least one, since the first cell is always placed). */
  function Columns(w: nat, t: nat): (c: nat)
    requires w >= 1
    ensures c >= 1
    ensures t / w >= 1 ==> c == t / w && c * w <= t && t < (c + 1) * w
  {
    if t / w >= 1 then t / w else 1
  }

  /** The column of cell i. */
  function Col(i: nat, w: nat, t: nat): nat
    requires w >= 1
  {
    i % Columns(w, t)
  }

  /** The row of cell i. */
  function Row(i: nat, w: nat, t: nat): nat
    requires w >= 1
  {
    i / Columns(w, t)
  }

  /** The x of cell i. */
  function CellX(i: nat, w: nat, t: nat): int {
    if w == 0 then 0 else w * Col(i, w, t)
  }

  /** The y of cell i. */
  function CellY(i: nat, w: nat, h: int, t: nat): int {
    if w == 0 then 0 else h * Row(i, w, t)
  }

  /** One cursor step: right by w, wrapping to the next row when the next cell would not fit. */
  function Advance(x: int, y: int, w: nat, h: int, t: nat): (int, int) {
    if x + w + w > t then (0, y + h) else (x + w, y)
  }

  /** Cells are numbered row by row: cell i is in row Row and column Col. */
  lemma ColRow(i: nat, w: nat, t: nat)
    requires w >= 1
    ensures Col(i, w, t) < Columns(w, t) && i == Columns(w, t) * Row(i, w, t) + Col(i, w, t)
  { }

  /** The cell after i is the next one in its row, or the first one of the next row. */
  lemma NextColRow(i: nat, w: nat, t: nat)
    requires w >= 1
    ensures Col(i, w, t) + 1 < Columns(w, t) ==> Col(i + 1, w, t) == Col(i, w, t) + 1 && Row(i + 1, w, t) == Row(i, w, t)
    ensures Col(i, w, t) + 1 == Columns(w, t) ==> Col(i + 1, w, t) == 0 && Row(i + 1, w, t) == Row(i, w, t) + 1
  {
    var c := Columns(w, t);
    ColRow(i, w, t);
    if Col(i, w, t) + 1 < c {
      DivModUnique(i + 1, c, Row(i, w, t), Col(i, w, t) + 1);
    } else {
      DivModUnique(i + 1, c, Row(i, w, t) + 1, 0);
    }
  }

  /** The cursor step takes cell i to cell i + 1. */
  lemma AdvanceCell(i: nat, w: nat, h: int, t: nat)
    ensures Advance(CellX(i, w, t), CellY(i, w, h, t), w, h, t) == (CellX(i + 1, w, t), CellY(i + 1, w, h, t))
  {
    if w >= 1 {
      NextColRow(i, w, t);
      ColRow(i, w, t);
      if Col(i, w, t) + 1 < Columns(w, t) {
        MulSucc(w, Col(i, w, t), Col(i + 1, w, t));
        RoomForNext(w, t, Col(i, w, t));
      } else {
        MulSucc(h, Row(i, w, t), Row(i + 1, w, t));
        NoRoomForNext(w, t, Col(i, w, t));
      }
    }
  }

  lemma MulSucc(w: int, a: int, b: int)
    requires b == a + 1
    ensures w * b == w * a + w
  { }

  /** Before the last column there is room for one more cell. */
  lemma RoomForNext(w: nat, t: nat, a: nat)
    requires w >= 1 && a + 1 < Columns(w, t)
    ensures w * a + w + w <= t
  {
    MulMono(w, a + 2, Columns(w, t));
  }

  /** In the last column the next cell would cross the right edge. */
  lemma NoRoomForNext(w: nat, t: nat, a: nat)
    requires w >= 1 && a + 1 == Columns(w, t)
    ensures w * a + w + w > t
  {
    assert w * (a + 2) == w * a + w + w;
  }

  /** Quotient and remainder are determined by any decomposition n == a * c + b with 0 <= b < c. */
  lemma DivModUnique(n: int, c: int, a: int, b: int)
    requires c >= 1 && n == a * c + b && 0 <= b < c
    ensures n / c == a && n % c == b
  {
    var q, r := n / c, n % c;
    assert (a - q) * c == r - b;
    if a != q {
      MulAtLeast(c, a - q);
    }
  }

  lemma MulMono(w: nat, a: int, b: int)
    requires a <= b
    ensures w * a <= w * b
  {
    assert w * b - w * a == w * (b - a);
  }

  lemma MulCancel(c: nat, q: int, rows: int)
    requires c * q < c * rows
    ensures q < rows
  {
    if q >= rows {
      MulMono(c, rows, q);
    }
  }

  lemma MulAtLeast(w: int, d: int)
    requires w >= 0 && d != 0
    ensures w * d >= w || w * d <= -w
  {
    if d > 0 {
      assert w * d == w + w * (d - 1);
      MulMono(w, 0, d - 1);
    } else {
      assert w * d == -w + w * (d + 1);
      MulMono(w, d + 1, 0);
    }
  }

  /** Different multiples of w are at least w apart. */
  lemma ScaledApart(w: nat, a: int, b: int)
    requires a != b
    ensures w * a - w * b >= w || w * b - w * a >= w
  {
    MulAtLeast(w, a - b);
    assert w * a - w * b == w * (a - b);
  }

  /** Different cells of a grid of at least unit width and height are at least a cell apart on some axis. */
  lemma CellsApart(i: nat, j: nat, w: nat, h: nat, t: nat)
    requires i != j && w >= 1
    ensures CellX(i, w, t) - CellX(j, w, t) >= w || CellX(j, w, t) - CellX(i, w, t) >= w
         || CellY(i, w, h, t) - CellY(j, w, h, t) >= h || CellY(j, w, h, t) - CellY(i, w, h, t) >= h
  {
    ColRow(i, w, t);
    ColRow(j, w, t);
    if Col(i, w, t) != Col(j, w, t) {
      ScaledApart(w, Col(i, w, t), Col(j, w, t));
    } else {
      ScaledApart(h, Row(i, w, t), Row(j, w, t));
    }
  }

  /** Cells of the first `rows` rows lie in [0, t] across and [0, rows * h] down, once a full cell fits across. */
  lemma CellInside(i: nat, w: nat, h: nat, t: nat, rows: nat)
    requires w >= 1 && t / w >= 1 && i < Columns(w, t) * rows
    ensures 0 <= CellX(i, w, t) && CellX(i, w, t) + w <= t
    ensures 0 <= CellY(i, w, h, t) && CellY(i, w, h, t) + h <= h * rows
  {
    ColRow(i, w, t);
    ColumnFits(w, t, Col(i, w, t));
    MulCancel(Columns(w, t), Row(i, w, t), rows);
    RowFits(h, Row(i, w, t), rows);
  }

  /** A cell in one of the columns ends within the texture. */
  lemma ColumnFits(w: nat, t: nat, a: nat)
    requires w >= 1 && t / w >= 1 && a < Columns(w, t)
    ensures w * a + w <= t
  {
    MulMono(w, a + 1, Columns(w, t));
    assert w * (a + 1) == w * a + w;
  }

  /** A cell in one of the first `rows` rows ends within them. */
  lemma RowFits(h: nat, r: nat, rows: nat)
    requires r < rows
    ensures h * r + h <= h * rows
  {
    MulMono(h, r + 1, rows);
    assert h * (r + 1) == h * r + h;
  }

  /*
   * Texture sizes: the atlas and the bitmap font both try the square sizes
   * 128, 256, 512, ... in turn and take the first one whose grid of square
   * cells of side w has room for n cells.
   */

  const MIN_TEXTURE_SIZE := 128
  const MAX_TEXTURE_SIZE := 8192

  function Pow2(k: nat): (p: nat)
    ensures p >= 1
  {
    if k == 0 then 1 else 2 * Pow2(k - 1)
  }

  /** The k-th size tried: 128 * 2^k. */
  function Candidate(k: nat): nat {
    MIN_TEXTURE_SIZE * Pow2(k)
  }

  /** How many cells of side w fit along a side of length t. */
  function Across(t: nat, w: nat): nat
    requires w >= 1
  {
    t / w
  }

  /** A t-by-t texture cut into cells of side w holds at least n cells. */
  predicate Fits(t: nat, w: nat, n: nat)
    requires w >= 1
  {
    Across(t, w) * Across(t, w) >= n
  }

  /** A texture at least n cells wide always fits n cells. */
  lemma LargeFits(t: nat, w: nat, n: nat)
    requires w >= 1 && t >= w * n
    ensures Fits(t, w, n)
  {
    var q, r := t / w, t % w;
    assert t == w * q + r && w * q + w == w * (q + 1);
    if q < n {
      MulMono(w, q + 1, n);
    }
    if q >= 1 {
      MulMono(q, 1, q);
    }
  }

  /** The first candidate from the k-th on that fits n cells of side w. */
  function FirstFit(k: nat, w: nat, n: nat): (e: nat)
    requires w >= 1
    ensures e >= k && Fits(Candidate(e), w, n)
    decreases w * n - Candidate(k)
  {
    if Fits(Candidate(k), w, n) then k
    else
      LargeFitsContra(Candidate(k), w, n);
      FirstFit(k + 1, w, n)
  }

  lemma LargeFitsContra(t: nat, w: nat, n: nat)
    requires w >= 1 && !Fits(t, w, n)
    ensures t < w * n
  {
    if t >= w * n {
      LargeFits(t, w, n);
    }
  }

  /** The texture size chosen for n cells of side w. */
  function SizeFor(w: nat, n: nat): nat
    requires w >= 1
  {
    Candidate(FirstFit(0, w, n))
  }

  /** No candidate before the chosen one fits. */
  lemma {:induction false} FirstFitMinimal(k: nat, j: nat, w: nat, n: nat)
    requires w >= 1 && k <= j < FirstFit(k, w, n)
    ensures !Fits(Candidate(j), w, n)
    decreases j - k
  {
    if j > k {
      LargeFitsContra(Candidate(k), w, n);
      FirstFitMinimal(k + 1, j, w, n);
    }
  }

  /** A candidate that fits when no earlier one does is the chosen one. */
  lemma FirstFitUnique(j: nat, w: nat, n: nat)
    requires w >= 1 && Fits(Candidate(j), w, n)
    requires forall i :: 0 <= i < j ==> !Fits(Candidate(i), w, n)
    ensures SizeFor(w, n) == Candidate(j)
  {
    var e := FirstFit(0, w, n);
    if j < e {
      FirstFitMinimal(0, j, w, n);
    }
  }

  /** Searching from the first candidate: at or before the chosen one, a candidate that fits is the chosen one and one that does not is before it. */
  lemma FirstFitStep(k: nat, w: nat, n: nat)
    requires w >= 1 && FirstFit(0, w, n) >= k
    ensures Fits(Candidate(k), w, n) ==> FirstFit(0, w, n) == k
    ensures !Fits(Candidate(k), w, n) ==> FirstFit(0, w, n) >= k + 1
  {
    if FirstFit(0, w, n) > k {
      FirstFitMinimal(0, k, w, n);
    }
  }

  /** The chosen size is the least power of two from 128 on that fits: it fits and every smaller candidate does not. */
  lemma SizeForLeast(w: nat, n: nat, k: nat)
    requires w >= 1
    ensures Fits(SizeFor(w, n), w, n)
    ensures Candidate(k) < SizeFor(w, n) ==> !Fits(Candidate(k), w, n)
  {
    var e := FirstFit(0, w, n);
    if Candidate(k) < SizeFor(w, n) {
      if k >= e {
        CandidateMono(e, k);
      }
      FirstFitMinimal(0, k, w, n);
    }
  }

  lemma {:induction false} CandidateMono(i: nat, j: nat)
    requires i <= j
    ensures Candidate(i) <= Candidate(j)
    decreases j - i
  {
    if i < j {
      CandidateMono(i, j - 1);
    }
  }

  /** A larger divisor gives a smaller quotient. */
  lemma DivAntiMono(t: nat, a: nat, b: nat)
    requires 1 <= a <= b
    ensures t / b <= t / a
  {
    var p, q := t / a, t / b;
    assert t == p * a + t % a && q * b <= t;
    MulMono(q, a, b);
    assert a * p + a == a * (p + 1);
    if q > p {
      MulMono(a, p + 1, q);
    }
  }
}
