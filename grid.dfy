/**
 * `EGrid`: the ground grid. Its line segments come from two buffers of a
 * fixed capacity, one of positions and one of colours, with one slot per
 * segment end: four slots for the two axes, then eight for each step of the
 * grid. The size is kept in `[1, 100]`; only the slots the size needs are
 * rewritten and drawn.
 */
module Grid {
  import opened Colors

  const MinSize: int := 1
  const MaxSize: int := 100
  /** The slots of each buffer: the four axis ends and eight per step at the largest size. */
  const Capacity: int := 4 + MaxSize * 8
  /** How much brighter the two axes are than the grid lines. */
  const BrighterFactor: real := 1.35
  const DefaultSize: int := 10
  const DefaultColor: Rgb := FromHex(0x777777)

  /** One slot of the position buffer. */
  datatype Vec3 = Vec3(x: int, y: int, z: int)

  /** `Math.min(Math.max(size, min_size), max_size)`. */
  function Clamp(size: int): int {
    if size < MinSize then MinSize else if size > MaxSize then MaxSize else size
  }

  function Abs(x: int): nat {
    if x < 0 then -x else x
  }

  /**
   * The clamped size is the size in `[1, 100]` nearest to the request, so
   * clamping a size already in range keeps it.
   */
  lemma ClampNearest(size: int, v: int)
    requires MinSize <= v <= MaxSize
    ensures MinSize <= Clamp(size) <= MaxSize
    ensures Abs(Clamp(size) - size) <= Abs(v - size)
    ensures Clamp(size) == size <==> MinSize <= size <= MaxSize
  {
  }

  /** The two axes: the ends of the line along z, then of the line along x. */
  function Axes(n: int): seq<Vec3> {
    [Vec3(0, 0, n), Vec3(0, 0, -n), Vec3(n, 0, 0), Vec3(-n, 0, 0)]
  }

  /** Step `i` of the grid: the lines at x = ±i, then the lines at z = ±i. */
  function Step(n: int, i: int): seq<Vec3> {
    [Vec3(i, 0, n), Vec3(i, 0, -n), Vec3(-i, 0, n), Vec3(-i, 0, -n),
     Vec3(n, 0, i), Vec3(-n, 0, i), Vec3(n, 0, -i), Vec3(-n, 0, -i)]
  }

  /** Steps 1 to `k`, in order: eight slots each. */
  function Steps(n: int, k: nat): (r: seq<Vec3>)
    ensures |r| == 8 * k
  {
    if k == 0 then [] else Steps(n, k - 1) + Step(n, k)
  }

  /** What `updateVertices` writes for a grid of size `n`: exactly `4 + 8n` slots. */
  function Layout(n: nat): (r: seq<Vec3>)
    ensures |r| == 4 + 8 * n
  {
    Axes(n) + Steps(n, n)
  }

  /** The eight slots from `8(i - 1)` hold step `i`. */
  lemma {:induction false} StepsAt(n: int, k: nat, i: int, j: int)
    requires 1 <= i <= k && 0 <= j < 8
    ensures Steps(n, k)[8 * (i - 1) + j] == Step(n, i)[j]
  {
    if i < k {
      StepsAt(n, k - 1, i, j);
    }
  }

  /**
   * The layout has `4 + 8n` slots, within the buffers' capacity when `n` is
   * at most 100; the axes come first and step `i` fills the eight slots
   * from `4 + 8(i - 1)`.
   */
  lemma LayoutSlots(n: nat, i: int, j: int)
    requires 1 <= i <= n && 0 <= j < 8
    ensures n <= MaxSize ==> |Layout(n)| <= Capacity
    ensures Layout(n)[4 + 8 * (i - 1) + j] == Step(n, i)[j]
  {
    StepsAt(n, n, i, j);
  }

  /** Slots `a` and `b` are the ends of a whole line of the grid: parallel to one axis, from one edge to the opposite one. */
  predicate GridLine(n: int, a: Vec3, b: Vec3) {
    && a.y == 0 && b.y == 0
    && ((a.x == b.x && -n <= a.x <= n && a.z == n && b.z == -n) || (a.z == b.z && -n <= a.z <= n && a.x == n && b.x == -n))
  }

  /** Every segment the layout draws is a whole line of the grid, from one edge to the opposite one. */
  lemma LayoutSegments(n: nat, s: int)
    requires 0 <= s < 2 + 4 * n
    ensures 2 * s + 1 < |Layout(n)|
    ensures GridLine(n, Layout(n)[2 * s], Layout(n)[2 * s + 1])
  {
    if s >= 2 {
      var t := s - 2;
      var i := t / 4 + 1;
      var j := 2 * (t % 4);
      assert 2 * s == 4 + 8 * (i - 1) + j;
      LayoutSlots(n, i, j);
      LayoutSlots(n, i, j + 1);
    }
  }

  /** Every integer offset from `-n` to `n` gets a line along z and a line along x. */
  lemma LayoutCovers(n: nat, c: int)
    requires -(n as int) <= c <= n
    ensures exists s :: 0 <= s < 2 + 4 * n && Layout(n)[2 * s].x == c && Layout(n)[2 * s + 1].x == c
    ensures exists s :: 0 <= s < 2 + 4 * n && Layout(n)[2 * s].z == c && Layout(n)[2 * s + 1].z == c
  {
    var l := Layout(n);
    if c == 0 {
      var s := 0;
      assert l[2 * s].x == c && l[2 * s + 1].x == c;
      assert l[2 * (s + 1)].z == c && l[2 * (s + 1) + 1].z == c;
    } else {
      var i := if c > 0 then c else -c;
      var j := if c > 0 then 0 else 2;
      LayoutSlots(n, i, j);
      LayoutSlots(n, i, j + 1);
      LayoutSlots(n, i, j + 4);
      LayoutSlots(n, i, j + 5);
      var s := 2 + 4 * (i - 1) + j / 2;
      assert l[2 * s].x == c && l[2 * s + 1].x == c;
      assert l[2 * (s + 2)].z == c && l[2 * (s + 2) + 1].z == c;
    }
  }

  /** What `updateColors` writes: the axes' four slots brighter, every other slot the colour. */
  function Palette(color: Rgb): seq<Rgb> {
    seq(Capacity, k => if k < 4 then Scale(color, BrighterFactor) else color)
  }

  /** Both ends of every segment share a colour: the brightened one on the axes, the colour itself on the grid lines. */
  lemma PaletteSegments(color: Rgb, s: int)
    requires 0 <= s < Capacity / 2
    ensures |Palette(color)| == Capacity
    ensures Palette(color)[2 * s] == Palette(color)[2 * s + 1]
    ensures Palette(color)[2 * s] == if s < 2 then Scale(color, BrighterFactor) else color
  {
  }

  /** A buffer whose first `idx` slots hold `pre` and next slots hold `more` starts with `pre + more`. */
  lemma PrefixGrows(p: seq<Vec3>, idx: nat, pre: seq<Vec3>, more: seq<Vec3>)
    requires idx + |more| <= |p| && p[..idx] == pre && p[idx..idx + |more|] == more
    ensures p[..idx + |more|] == pre + more
  {
    assert p[..idx + |more|] == p[..idx] + p[idx..idx + |more|];
  }

  /** `new EGrid()`: a grid of the default size and colour. */
  method DefaultGrid() returns (g: EGrid)
    ensures fresh(g) && fresh(g.positions) && fresh(g.colors)
    ensures g.size == DefaultSize && g.color == DefaultColor && g.Valid()
  {
    g := new EGrid(DefaultSize, DefaultColor);
  }

  class EGrid {
    var size: int
    var color: Rgb
    /** The position buffer. */
    const positions: array<Vec3>
    /** The colour buffer. */
    const colors: array<Rgb>
    /** The draw range of the geometry, from slot 0. */
    var drawCount: int

    /**
     * The size is in range, the slots of the draw range hold its layout,
     * and every colour slot holds the palette of the colour.
     */
    ghost predicate Valid()
      reads this, positions, colors
    {
      && positions.Length == Capacity && colors.Length == Capacity
      && MinSize <= size <= MaxSize
      && drawCount == 4 + 8 * size
      && positions[..drawCount] == Layout(size)
      && colors[..] == Palette(color)
    }

    /**
     * Both buffers start zeroed; the size is clamped, then the colours and
     * the vertices are written.
     */
    constructor (size: int, color: Rgb)
      ensures this.size == Clamp(size) && this.color == color
      ensures fresh(positions) && fresh(colors) && positions.Length == Capacity
      ensures drawCount == 4 + 8 * this.size && forall k :: drawCount <= k < Capacity ==> positions[k] == Vec3(0, 0, 0)
      ensures Valid()
    {
      positions := new Vec3[Capacity](_ => Vec3(0, 0, 0));
      colors := new Rgb[Capacity](_ => Rgb(0.0, 0.0, 0.0));
      this.size := Clamp(size);
      this.color := color;
      new;
      UpdateColors();
      UpdateVertices();
    }

    /** `updateColors`: the four axis slots get the brightened colour, then every other slot the colour. */
    method UpdateColors()
      requires colors.Length == Capacity
      modifies colors
      ensures colors[..] == Palette(color)
    {
      var i := 0;
      while i < 4
        invariant 0 <= i <= 4
        invariant forall k :: 0 <= k < i ==> colors[k] == Scale(color, BrighterFactor)
      {
        colors[i] := Scale(color, BrighterFactor);
        i := i + 1;
      }
      var last := MaxSize * 8 + 4;
      i := 4;
      while i < last
        invariant 4 <= i <= last
        invariant forall k :: 0 <= k < 4 ==> colors[k] == Scale(color, BrighterFactor)
        invariant forall k :: 4 <= k < i ==> colors[k] == color
      {
        colors[i] := color;
        i := i + 1;
      }
      assert colors[..] == Palette(color);
    }

    /**
     * `updateVertices`: writes the layout of the current size into the
     * first `4 + 8 * size` slots, leaves the slots after them as they were,
     * and sets the draw range to the slots written.
     */
    method UpdateVertices()
      requires positions.Length == Capacity && MinSize <= size <= MaxSize
      modifies positions, this`drawCount
      ensures drawCount == 4 + 8 * size && drawCount <= Capacity
      ensures positions[..drawCount] == Layout(size)
      ensures positions[drawCount..] == old(positions[4 + 8 * size..])
    {
      var n := size;
      positions[0] := Vec3(0, 0, n);
      positions[1] := Vec3(0, 0, -n);
      positions[2] := Vec3(n, 0, 0);
      positions[3] := Vec3(-n, 0, 0);
      assert positions[..4] == Axes(n) + Steps(n, 0);
      var idx := 4;
      var i := 1;
      while i <= n
        invariant 1 <= i <= n + 1 && idx == 4 + 8 * (i - 1)
        invariant positions[..idx] == Axes(n) + Steps(n, i - 1)
        invariant forall k :: idx <= k < Capacity ==> positions[k] == old(positions[k])
      {
        WriteStep(n, i, idx, Axes(n) + Steps(n, i - 1));
        idx := idx + 8;
        i := i + 1;
      }
      drawCount := 4 + n * 8;
    }

    /** The body of `updateVertices`' loop: the eight slots from `idx`, each written then passed. */
    method WriteStep(n: int, i: int, idx: int, ghost pre: seq<Vec3>)
      requires positions.Length == Capacity && 0 <= idx <= Capacity - 8 && positions[..idx] == pre
      modifies positions
      ensures positions[..idx + 8] == pre + Step(n, i)
      ensures forall k :: idx + 8 <= k < Capacity ==> positions[k] == old(positions[k])
    {
      var k := idx;
      positions[k] := Vec3(i, 0, n); k := k + 1;
      positions[k] := Vec3(i, 0, -n); k := k + 1;
      positions[k] := Vec3(-i, 0, n); k := k + 1;
      positions[k] := Vec3(-i, 0, -n); k := k + 1;
      positions[k] := Vec3(n, 0, i); k := k + 1;
      positions[k] := Vec3(-n, 0, i); k := k + 1;
      positions[k] := Vec3(n, 0, -i); k := k + 1;
      positions[k] := Vec3(-n, 0, -i); k := k + 1;
      PrefixGrows(positions[..], idx, pre, Step(n, i));
    }

    /** `setColor`: the colour changes and every colour slot is rewritten; the positions stay. */
    method SetColor(c: Rgb)
      requires Valid()
      modifies this`color, colors
      ensures color == c && size == old(size) && Valid()
      ensures unchanged(positions)
    {
      color := c;
      UpdateColors();
    }

    /**
     * `setSize`: the size becomes the clamped request and the vertices are
     * rewritten; slots past the new draw range keep what they held, and the
     * colours stay.
     */
    method SetSize(s: int)
      requires Valid()
      modifies this`size, this`drawCount, positions
      ensures size == Clamp(s) && color == old(color) && Valid()
      ensures positions[drawCount..] == old(positions[4 + 8 * Clamp(s)..])
      ensures unchanged(colors)
    {
      size := Clamp(s);
      UpdateVertices();
    }
  }
}
