/** Skia's glyph keys and glyph rectangles (src/core/SkGlyph.h):
    `SkPackedGlyphID`, a 16-bit glyph id and two 2-bit sub-pixel positions
    packed into one 32-bit word; `SkGlyphRect`, a rectangle of 16-bit
    coordinates stored with its right and bottom edges negated so that union
    and intersection are plain elementwise min and max; and the bounds
    predicates of `SkGlyph`.

    Words are integers in their C++ range. A shift right followed by a mask
    is a division and a remainder by powers of two; the `|` that packs
    fields which do not overlap is a sum. */
module SkGlyph {
  import opened Arith

  // ---------------------------------------------------------------------
  // SkPackedGlyphID

  type U32 = x: int | 0 <= x < 0x1_0000_0000
  type U16 = x: int | 0 <= x < 0x1_0000
  /** `SkFixed`: 16.16 fixed point in an `int32_t`. */
  type Fixed = x: int | -0x8000_0000 <= x < 0x8000_0000

  /** `kSubPixelX` and `kSubPixelY`, the bit positions of the two
      sub-pixel fields. */
  const SubPixelX: nat := 0
  const SubPixelY: nat := 18
  /** `1 << kGlyphID`: the glyph id sits above the x field. */
  const GlyphIDScale: nat := 4
  /** `1 << kSubPixelY`. */
  const SubPixelYScale: nat := 0x4_0000
  /** `kGlyphIDMask + 1` and `kSubPixelPosMask + 1`. */
  const GlyphIDRange: nat := 0x1_0000
  const SubPixelRange: nat := 4
  /** `kMaskAll + 1`: the packed data is the low 20 bits (`kEndData`). */
  const DataRange: nat := 0x10_0000
  /** `1 << kFixedPointSubPixelPosBits`: a sub-pixel field is bits 14-15 of
      a fixed-point number, its top two fractional bits. */
  const FixedSubScale: nat := 0x4000

  /** `kImpossibleID`, `~0u`: the id of a default-constructed key. */
  const ImpossibleID: U32 := 0xFFFF_FFFF

  /** `(uint32_t)n`. */
  function ToU32(n: int): U32
  {
    n % 0x1_0000_0000
  }

  /** The shift that selects the sub-pixel field at bit `subPixelPosBit`. */
  function PosScale(subPixelPosBit: nat): nat
    requires subPixelPosBit == SubPixelX || subPixelPosBit == SubPixelY
  {
    if subPixelPosBit == SubPixelX then 1 else SubPixelYScale
  }

  /** `fID`: sub-pixel x in bits 0-1, the glyph id in bits 2-17, sub-pixel
      y in bits 18-19. */
  datatype PackedGlyphID = PackedGlyphID(id: U32) {

    /** `glyphID()`: the middle field, which with the two sub-pixel fields
        makes up a packed word. */
    function GlyphID(): (r: U16)
      ensures id < DataRange ==>
                id == SubField(SubPixelX) + r * GlyphIDScale + SubField(SubPixelY) * SubPixelYScale
    {
      var q := id / GlyphIDScale;
      DivModUnique(id, SubPixelYScale, q / GlyphIDRange, id % GlyphIDScale + GlyphIDScale * (q % GlyphIDRange));
      (id / GlyphIDScale) % GlyphIDRange
    }

    /** The sub-pixel field at `subPixelPosBit`, as `subToFixed` reads it. */
    function SubField(subPixelPosBit: nat): nat
      requires subPixelPosBit == SubPixelX || subPixelPosBit == SubPixelY
    {
      (id / PosScale(subPixelPosBit)) % SubPixelRange
    }

    /** `subToFixed`: the field moved to the top two fractional bits of a
        16.16 fixed-point number, which is then a non-negative multiple of
        a quarter pixel below one pixel. */
    function SubToFixed(subPixelPosBit: nat): (r: Fixed)
      requires subPixelPosBit == SubPixelX || subPixelPosBit == SubPixelY
      ensures 0 <= r < 0x1_0000 && r % FixedSubScale == 0 && r / FixedSubScale == SubField(subPixelPosBit)
    {
      var f := SubField(subPixelPosBit);
      DivModUnique(f * FixedSubScale, FixedSubScale, f, 0);
      f * FixedSubScale
    }

    /** `getSubXFixed()`: the x field as a number of quarter pixels. */
    function SubXFixed(): (r: Fixed)
      ensures 0 <= r < 0x1_0000 && r % FixedSubScale == 0 && r / FixedSubScale == SubField(SubPixelX)
    {
      SubToFixed(SubPixelX)
    }

    /** `getSubYFixed()`: the y field as a number of quarter pixels. */
    function SubYFixed(): (r: Fixed)
      ensures 0 <= r < 0x1_0000 && r % FixedSubScale == 0 && r / FixedSubScale == SubField(SubPixelY)
    {
      SubToFixed(SubPixelY)
    }

    /** `operator==`: the word is the whole key. */
    function Eq(that: PackedGlyphID): (r: bool)
      ensures r <==> this == that
    {
      id == that.id
    }

    /** `operator!=`. */
    function Neq(that: PackedGlyphID): (r: bool)
      ensures r <==> this != that
    {
      !Eq(that)
    }

    /** `operator<`: the order of the raw words, under which two different
        keys are always ordered one way or the other. */
    function Less(that: PackedGlyphID): (r: bool)
      ensures r ==> this != that
      ensures !r ==> this == that || that.id < id
    {
      id < that.id
    }
  }

  /** Every key the packing constructors build fits in `kMaskAll`. */
  predicate Packed(p: PackedGlyphID)
  {
    p.id < DataRange
  }

  /** The three fields of a word below `kMaskAll + 1`. */
  lemma Fields(x: nat, g: nat, y: nat)
    requires x < SubPixelRange && g < GlyphIDRange && y < SubPixelRange
    ensures var w := PackedGlyphID(x + y * SubPixelYScale + g * GlyphIDScale);
            Packed(w) && w.GlyphID() == g && w.SubField(SubPixelX) == x && w.SubField(SubPixelY) == y
  {
    var id := x + y * SubPixelYScale + g * GlyphIDScale;
    DivModUnique(id, GlyphIDScale, g + GlyphIDRange * y, x);
    DivModUnique(g + GlyphIDRange * y, GlyphIDRange, y, g);
    DivModUnique(id, SubPixelYScale, y, x + GlyphIDScale * g);
    DivModUnique(y, SubPixelRange, 0, y);
  }

  /** `SkPackedGlyphID(SkGlyphID)`: the glyph at sub-pixel position (0, 0). */
  function FromGlyphID(glyphID: U16): (p: PackedGlyphID)
    ensures Packed(p) && p.GlyphID() == glyphID
    ensures p.SubField(SubPixelX) == 0 && p.SubField(SubPixelY) == 0
  {
    Fields(0, glyphID, 0);
    PackedGlyphID(glyphID * GlyphIDScale)
  }

  /** `PackIDSubXSubY`: the two sub-pixel positions must be below 4. */
  function PackIDSubXSubY(glyphID: U16, x: nat, y: nat): (p: PackedGlyphID)
    requires x < SubPixelRange && y < SubPixelRange
    ensures Packed(p) && p.GlyphID() == glyphID
    ensures p.SubField(SubPixelX) == x && p.SubField(SubPixelY) == y
  {
    Fields(x, glyphID, y);
    PackedGlyphID(x + y * SubPixelYScale + glyphID * GlyphIDScale)
  }

  /** `FixedToSub`: bits 14-15 of a fixed-point number, the quarter pixel
      its fraction falls in; negative numbers are read through their
      unsigned pattern. */
  function FixedToSub(n: Fixed): (r: nat)
    ensures r < SubPixelRange && r == (n % 0x1_0000) / FixedSubScale
  {
    var u := ToU32(n);
    var f := n % 0x1_0000;
    DivModUnique(n, 0x1_0000, 0x1_0000 * (n / 0x1_0000_0000) + u / 0x1_0000, u % 0x1_0000);
    DivModUnique(u, FixedSubScale, SubPixelRange * (u / 0x1_0000) + f / FixedSubScale, f % FixedSubScale);
    DivModUnique(u / FixedSubScale, SubPixelRange, u / 0x1_0000, f / FixedSubScale);
    (u / FixedSubScale) % SubPixelRange
  }

  /** `PackIDXY`: a glyph at fixed-point sub-pixel offsets, each rounded
      down to a quarter pixel of its fraction. */
  function PackIDXY(glyphID: U16, x: Fixed, y: Fixed): (p: PackedGlyphID)
    ensures Packed(p) && p.GlyphID() == glyphID
    ensures p.SubXFixed() == (x % 0x1_0000) / FixedSubScale * FixedSubScale
    ensures p.SubYFixed() == (y % 0x1_0000) / FixedSubScale * FixedSubScale
  {
    PackIDSubXSubY(glyphID, FixedToSub(x), FixedToSub(y))
  }

  /** `SkPackedGlyphID(uint32_t)`: keeps the low 20 bits. */
  function FromValue(v: U32): (p: PackedGlyphID)
    ensures Packed(p) && (v - p.id) % DataRange == 0
  {
    PackedGlyphID(v % DataRange)
  }

  /** The `uint32_t` constructor changes exactly the words that are not
      already packed. */
  lemma FromValueKeepsPacked(v: U32)
    ensures FromValue(v).id == v <==> Packed(PackedGlyphID(v))
  {
  }

  /** `SkPackedGlyphID()`: `kImpossibleID`, which no packed key equals. */
  function Default(): (p: PackedGlyphID)
    ensures !Packed(p) && forall q: PackedGlyphID :: Packed(q) ==> q.Neq(p)
  {
    PackedGlyphID(ImpossibleID)
  }

  /** Packing a glyph id with sub-pixel positions below 4 and reading
      `glyphID()` gives the id back; `FixedToSub` of `subToFixed` gives the
      positions back. */
  lemma PackRoundTrip(glyphID: U16, x: nat, y: nat)
    requires x < SubPixelRange && y < SubPixelRange
    ensures var p := PackIDSubXSubY(glyphID, x, y);
            p.GlyphID() == glyphID && FixedToSub(p.SubXFixed()) == x && FixedToSub(p.SubYFixed()) == y
  {
    FixedToSubOfSubToFixed(PackIDSubXSubY(glyphID, x, y));
  }

  /** `FixedToSub` undoes `subToFixed`. */
  lemma FixedToSubOfSubToFixed(p: PackedGlyphID)
    ensures FixedToSub(p.SubXFixed()) == p.SubField(SubPixelX)
    ensures FixedToSub(p.SubYFixed()) == p.SubField(SubPixelY)
  {
    DivModUnique(p.SubXFixed(), 0x1_0000, 0, p.SubXFixed());
    DivModUnique(p.SubYFixed(), 0x1_0000, 0, p.SubYFixed());
  }

  /** A packed key is rebuilt exactly from its glyph id and its two
      fixed-point sub-pixel offsets. */
  lemma PackedFromParts(p: PackedGlyphID)
    requires Packed(p)
    ensures PackIDXY(p.GlyphID(), p.SubXFixed(), p.SubYFixed()) == p
  {
    FixedToSubOfSubToFixed(p);
    var id := p.id;
    var low := id % GlyphIDScale + GlyphIDScale * ((id / GlyphIDScale) % GlyphIDRange);
    DivModUnique(id, SubPixelYScale, (id / GlyphIDScale) / GlyphIDRange, low);
    DivModUnique(id / SubPixelYScale, SubPixelRange, 0, id / SubPixelYScale);
  }

  /** `==` and `!=` see only the raw word, which is the whole key. */
  lemma EqualityOnRawID(a: PackedGlyphID, b: PackedGlyphID)
    ensures a.Eq(b) <==> a == b
    ensures a.Neq(b) <==> a != b
  {
  }

  /** `<` on the raw word is a strict total order of keys. */
  lemma LessIsStrictTotalOrder(a: PackedGlyphID, b: PackedGlyphID, c: PackedGlyphID)
    ensures !a.Less(a)
    ensures a.Less(b) && b.Less(c) ==> a.Less(c)
    ensures a.Less(b) || a == b || b.Less(a)
  {
  }

  // ---------------------------------------------------------------------
  // SkGlyphRect

  newtype Int16 = x: int | -0x8000 <= x < 0x8000

  const Int16Max: Int16 := 0x7FFF

  /** `fRect`: (left, top, -right, -bottom). */
  datatype GlyphRect = GlyphRect(s0: Int16, s1: Int16, s2: Int16, s3: Int16) {
    /** The edges `rect()` reads: left and top as stored, right and bottom
        negated back. Within the intended range each lies in
        [-32767, 32767]. */
    function Left(): (r: int)
      ensures -0x8000 <= r < 0x8000 && (s0 != -0x8000 ==> -0x7FFF <= r <= 0x7FFF)
    {
      s0 as int
    }

    function Top(): (r: int)
      ensures -0x8000 <= r < 0x8000 && (s1 != -0x8000 ==> -0x7FFF <= r <= 0x7FFF)
    {
      s1 as int
    }

    function Right(): (r: int)
      ensures -0x7FFF <= r <= 0x8000 && (s2 != -0x8000 ==> -0x7FFF <= r <= 0x7FFF)
    {
      -(s2 as int)
    }

    function Bottom(): (r: int)
      ensures -0x7FFF <= r <= 0x8000 && (s3 != -0x8000 ==> -0x7FFF <= r <= 0x7FFF)
    {
      -(s3 as int)
    }

    /** `empty()`: no area between the left and right or the top and
        bottom edges. */
    function Empty(): (r: bool)
      ensures r <==> Left() >= Right() || Top() >= Bottom()
    {
      s0 as int >= -(s2 as int) || s1 as int >= -(s3 as int)
    }
  }

  /** The coordinates the class is meant for, [-32767, 32767]: no stored
      value is `INT16_MIN`. */
  predicate InRange(r: GlyphRect)
  {
    r.s0 != -0x8000 && r.s1 != -0x8000 && r.s2 != -0x8000 && r.s3 != -0x8000
  }

  /** The public constructor: the four edges must not be `INT16_MIN`. */
  function MakeRect(left: Int16, top: Int16, right: Int16, bottom: Int16): (r: GlyphRect)
    requires left != -0x8000 && top != -0x8000 && right != -0x8000 && bottom != -0x8000
    ensures InRange(r)
    ensures r.Left() == left as int && r.Top() == top as int
    ensures r.Right() == right as int && r.Bottom() == bottom as int
    ensures r.Empty() <==> left >= right || top >= bottom
  {
    GlyphRect(left, top, -right, -bottom)
  }

  function Min(a: Int16, b: Int16): Int16 { if a < b then a else b }
  function Max(a: Int16, b: Int16): Int16 { if a < b then b else a }

  /** `rect_union`: the bounding box of both. */
  function Union(a: GlyphRect, b: GlyphRect): (r: GlyphRect)
    ensures r.Left() == if a.Left() < b.Left() then a.Left() else b.Left()
    ensures r.Top() == if a.Top() < b.Top() then a.Top() else b.Top()
    ensures r.Right() == if a.Right() < b.Right() then b.Right() else a.Right()
    ensures r.Bottom() == if a.Bottom() < b.Bottom() then b.Bottom() else a.Bottom()
  {
    GlyphRect(Min(a.s0, b.s0), Min(a.s1, b.s1), Min(a.s2, b.s2), Min(a.s3, b.s3))
  }

  /** `rect_intersection`: the overlap of both. */
  function Intersection(a: GlyphRect, b: GlyphRect): (r: GlyphRect)
    ensures r.Left() == if a.Left() < b.Left() then b.Left() else a.Left()
    ensures r.Top() == if a.Top() < b.Top() then b.Top() else a.Top()
    ensures r.Right() == if a.Right() < b.Right() then a.Right() else b.Right()
    ensures r.Bottom() == if a.Bottom() < b.Bottom() then a.Bottom() else b.Bottom()
  {
    GlyphRect(Max(a.s0, b.s0), Max(a.s1, b.s1), Max(a.s2, b.s2), Max(a.s3, b.s3))
  }

  /** `empty_rect()`: left and top at the maximum, right and bottom at the
      minimum. */
  function EmptyRect(): (r: GlyphRect)
    ensures InRange(r) && r.Empty()
  {
    MakeRect(Int16Max, Int16Max, -Int16Max, -Int16Max)
  }

  /** `full_rect()`: the whole coordinate range. */
  function FullRect(): (r: GlyphRect)
    ensures InRange(r) && !r.Empty()
  {
    MakeRect(-Int16Max, -Int16Max, Int16Max, Int16Max)
  }

  /** Wrap-around to `int16_t`, as `skvx` addition on 16-bit lanes does. */
  function Wrap16(x: int): (r: Int16)
    ensures -0x8000 <= x < 0x8000 ==> r as int == x
  {
    ((x + 0x8000) % 0x1_0000 - 0x8000) as Int16
  }

  /** `offset(x, y)`: adds (x, y, -x, -y) lane by lane; `SkTo` requires
      -x and -y to fit. When nothing wraps, every edge moves by the offset
      and emptiness is kept. */
  function Offset(r: GlyphRect, x: Int16, y: Int16): (o: GlyphRect)
    requires x != -0x8000 && y != -0x8000
    ensures NoWrap(r, x, y) ==>
              o.Left() == r.Left() + x as int && o.Top() == r.Top() + y as int &&
              o.Right() == r.Right() + x as int && o.Bottom() == r.Bottom() + y as int &&
              (o.Empty() <==> r.Empty())
  {
    GlyphRect(Wrap16(r.s0 as int + x as int), Wrap16(r.s1 as int + y as int),
              Wrap16(r.s2 as int - x as int), Wrap16(r.s3 as int - y as int))
  }

  predicate NoWrap(r: GlyphRect, x: Int16, y: Int16)
  {
    -0x8000 <= r.s0 as int + x as int < 0x8000 && -0x8000 <= r.s1 as int + y as int < 0x8000 &&
    -0x8000 <= r.s2 as int - x as int < 0x8000 && -0x8000 <= r.s3 as int - y as int < 0x8000
  }

  /** Within the intended range the public constructor rebuilds a
      rectangle exactly from the four edges `rect()` reads. */
  lemma RectEdgesRoundTrip(r: GlyphRect)
    requires InRange(r)
    ensures MakeRect(r.Left() as Int16, r.Top() as Int16, r.Right() as Int16, r.Bottom() as Int16) == r
  {
  }

  /** Union and intersection are commutative, associative and idempotent,
      and each absorbs the other: the rectangles form a lattice. */
  lemma RectLattice(a: GlyphRect, b: GlyphRect, c: GlyphRect)
    ensures Union(a, b) == Union(b, a) && Intersection(a, b) == Intersection(b, a)
    ensures Union(Union(a, b), c) == Union(a, Union(b, c))
    ensures Intersection(Intersection(a, b), c) == Intersection(a, Intersection(b, c))
    ensures Union(a, a) == a && Intersection(a, a) == a
    ensures Union(a, Intersection(a, b)) == a && Intersection(a, Union(a, b)) == a
  {
    LaneLattice(a.s0, b.s0, c.s0);
    LaneLattice(a.s1, b.s1, c.s1);
    LaneLattice(a.s2, b.s2, c.s2);
    LaneLattice(a.s3, b.s3, c.s3);
  }

  /** The lattice laws of one lane's `min` and `max`. */
  lemma LaneLattice(x: Int16, y: Int16, z: Int16)
    ensures Min(x, y) == Min(y, x) && Max(x, y) == Max(y, x)
    ensures Min(Min(x, y), z) == Min(x, Min(y, z)) && Max(Max(x, y), z) == Max(x, Max(y, z))
    ensures Min(x, x) == x && Max(x, x) == x
    ensures Min(x, Max(x, y)) == x && Max(x, Min(x, y)) == x
  {
  }

  /** On the intended coordinate range `empty_rect()` is the unit of union
      and `full_rect()` the unit of intersection. */
  lemma RectIdentities(a: GlyphRect)
    requires InRange(a)
    ensures Union(EmptyRect(), a) == a && Union(a, EmptyRect()) == a
    ensures Intersection(FullRect(), a) == a && Intersection(a, FullRect()) == a
  {
  }

  /** Outside that range the identities fail: a stored `INT16_MIN`
      survives union with `empty_rect()` only because it is smaller, and is
      lost on intersection with `full_rect()`. */
  lemma FullRectNotIdentityAtMin()
    ensures Intersection(FullRect(), GlyphRect(-0x8000, 0, 0, 0)) != GlyphRect(-0x8000, 0, 0, 0)
  {
  }

  // ---------------------------------------------------------------------
  // SkGlyph bounds

  /** The bounds of an `SkGlyph`: `fWidth`/`fHeight` are `uint16_t`,
      `fLeft`/`fTop` are `int16_t`. */
  datatype Glyph = Glyph(id: PackedGlyphID, width: UInt16, height: UInt16, top: Int16, left: Int16)

  newtype UInt16 = x: int | 0 <= x < 0x1_0000

  /** `kMaxGlyphWidth`, 2^13. */
  const MaxGlyphWidth: UInt16 := 0x2000

  /** The class invariant asserted by `isEmpty`: zero height only with zero
      width. */
  predicate HeightImpliesWidth(g: Glyph)
  {
    g.height != 0 || g.width == 0
  }

  /** `isEmpty()`: zero width; under the class invariant a glyph of zero
      height is empty too. */
  function IsEmpty(g: Glyph): (r: bool)
    ensures HeightImpliesWidth(g) && g.height == 0 ==> r
    ensures r ==> MaxDimension(g) == g.height as int
  {
    g.width == 0
  }

  /** `imageTooLarge()`: a width of at least 2^13, so the glyph is not
      empty. */
  function ImageTooLarge(g: Glyph): (r: bool)
    ensures r ==> !IsEmpty(g) && MaxDimension(g) >= MaxGlyphWidth as int
  {
    g.width >= MaxGlyphWidth
  }

  /** `setImageHasBeenCalled()`, given whether `fImage` is set: only a
      glyph of width between 1 and 2^13 - 1 can still lack an image. */
  function SetImageHasBeenCalled(g: Glyph, hasImage: bool): (r: bool)
    ensures IsEmpty(g) || ImageTooLarge(g) ==> r
    ensures !r <==> !hasImage && 0 < g.width < MaxGlyphWidth
  {
    hasImage || IsEmpty(g) || ImageTooLarge(g)
  }

  /** `maxDimension()`. */
  function MaxDimension(g: Glyph): (m: int)
    ensures m >= g.width as int && m >= g.height as int && (m == g.width as int || m == g.height as int)
  {
    if g.width < g.height then g.height as int else g.width as int
  }

  /** `glyphRect()`: `SkTo<int16_t>` requires the right and bottom edges to
      fit, and the rectangle constructor that no edge is `INT16_MIN`. */
  function GlyphRectOf(g: Glyph): (r: GlyphRect)
    requires g.left != -0x8000 && g.top != -0x8000
    requires g.left as int + g.width as int < 0x8000 && g.top as int + g.height as int < 0x8000
    ensures InRange(r) && r.Left() == g.left as int && r.Top() == g.top as int
    ensures r.Right() - r.Left() == g.width as int && r.Bottom() - r.Top() == g.height as int
  {
    MakeRect(g.left, g.top, (g.left as int + g.width as int) as Int16, (g.top as int + g.height as int) as Int16)
  }

  /** Under the class invariant, a glyph is empty exactly when its
      rectangle is; a glyph too large for an image is never empty. */
  lemma EmptyGlyphRect(g: Glyph)
    requires g.left != -0x8000 && g.top != -0x8000
    requires g.left as int + g.width as int < 0x8000 && g.top as int + g.height as int < 0x8000
    requires HeightImpliesWidth(g)
    ensures IsEmpty(g) <==> GlyphRectOf(g).Empty()
    ensures ImageTooLarge(g) ==> !IsEmpty(g) && SetImageHasBeenCalled(g, false)
  {
  }
}
