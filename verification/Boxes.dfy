/** Dirty boxes of the framebuffer library: joining reported rectangles, and the
    align-to-16-and-clamp step that a refresh applies before it publishes a box. */
module Boxes {

  /** A region by its top-left and (exclusive) bottom-right corner, in pixels. */
  datatype Box = Box(x1: int, y1: int, x2: int, y2: int)

  predicate Covers(b: Box, x: int, y: int) {
    b.x1 <= x < b.x2 && b.y1 <= y < b.y2
  }

  /** Corner-wise inclusion. */
  predicate Within(a: Box, b: Box) {
    b.x1 <= a.x1 && b.y1 <= a.y1 && a.x2 <= b.x2 && a.y2 <= b.y2
  }

  function Min(a: int, b: int): int { if a < b then a else b }
  function Max(a: int, b: int): int { if a > b then a else b }

  function OfRect(x: int, y: int, w: int, h: int): Box {
    Box(x, y, x + w, y + h)
  }

  function Join(a: Box, b: Box): Box {
    Box(Min(a.x1, b.x1), Min(a.y1, b.y1), Max(a.x2, b.x2), Max(a.y2, b.y2))
  }

  /** `mux_expand_rect`. */
  function Expand(b: Box, x: int, y: int, w: int, h: int): Box {
    Join(b, OfRect(x, y, w, h))
  }

  /** C's remainder by 16, which takes the sign of the dividend. */
  function Rem16(v: int): int {
    if v >= 0 then v % 16 else -((-v) % 16)
  }

  function AlignLo(v: int): int {
    if Rem16(v) != 0 then v - Rem16(v) else v
  }

  function AlignHi(v: int): int {
    if Rem16(v) != 0 then v + (16 - Rem16(v)) else v
  }

  /** `if (v > limit) v = limit`, where the comparison converts `v` to an unsigned size. */
  function ClampHi(v: int, limit: nat): int {
    if v < 0 || v > limit then limit else v
  }

  /** The alignment and clamping at the head of `mux_display_refresh`. */
  function Close(b: Box, w: nat, h: nat): Box {
    Box(AlignLo(b.x1), AlignLo(b.y1), ClampHi(AlignHi(b.x2), w), ClampHi(AlignHi(b.y2), h))
  }

  /** No coordinate is negative; the box may be the wrong way round. */
  predicate Natural(b: Box) {
    0 <= b.x1 && 0 <= b.y1 && 0 <= b.x2 && 0 <= b.y2
  }

  /** Non-negative coordinates, right way round. */
  predicate Proper(b: Box) {
    0 <= b.x1 <= b.x2 && 0 <= b.y1 <= b.y2
  }

  /** The aligned top-left corner is on the surface or on its far edge. */
  predicate Anchored(b: Box, w: nat, h: nat) {
    Proper(b) && AlignLo(b.x1) <= w && AlignLo(b.y1) <= h
  }

  /** A refresh of this box copies existing rows, and its left edge is a C integer. Nothing
      is said about the surface's right edge. */
  predicate Landed(b: Box, h: nat) {
    Natural(b) && b.x1 < 0x8000_0000 && b.y1 <= b.y2 && AlignLo(b.y1) <= h
  }

  /** A box whose low corner lies on the 16-pixel grid and whose high corner lies on the
      grid or on the surface edge. */
  predicate OnGrid(b: Box, w: nat, h: nat) {
    && b.x1 % 16 == 0 && b.y1 % 16 == 0
    && (b.x2 == w || (b.x2 % 16 == 0 && b.x2 <= w))
    && (b.y2 == h || (b.y2 % 16 == 0 && b.y2 <= h))
  }

  /** The part of `b` left of the right edge and above the bottom edge. */
  function Clip(b: Box, w: nat, h: nat): Box {
    Box(b.x1, b.y1, Min(b.x2, w), Min(b.y2, h))
  }

  /** Closing, by whole multiples of 16. */
  lemma CloseByGrid(b: Box, w: nat, h: nat)
    requires Natural(b)
    ensures Close(b, w, h) == Box(b.x1 / 16 * 16, b.y1 / 16 * 16,
                                  Min((b.x2 + 15) / 16 * 16, w), Min((b.y2 + 15) / 16 * 16, h))
  {
    hide AlignLo, AlignHi, ClampHi;
    LowByGrid(b.x1);
    LowByGrid(b.y1);
    HighByGrid(b.x2, w);
    HighByGrid(b.y2, h);
  }

  lemma LowByGrid(v: int)
    requires 0 <= v
    ensures AlignLo(v) == v / 16 * 16
  {
  }

  lemma HighByGrid(v: int, limit: nat)
    requires 0 <= v
    ensures ClampHi(AlignHi(v), limit) == Min((v + 15) / 16 * 16, limit)
  {
    assert AlignHi(v) == (v + 15) / 16 * 16;
  }

  lemma AlignHiJoin(a: int, b: int)
    requires 0 <= a && 0 <= b
    ensures AlignHi(Max(a, b)) == Max(AlignHi(a), AlignHi(b))
    ensures AlignLo(Min(a, b)) == Min(AlignLo(a), AlignLo(b))
  {
  }

  /** Closing loses no pixel of the surface. */
  lemma CloseKeepsPixels(b: Box, w: nat, h: nat, x: int, y: int)
    requires Natural(b) && Covers(b, x, y) && x < w && y < h
    ensures Covers(Close(b, w, h), x, y)
  {
  }

  /** Closing yields the least grid box that contains the on-surface part of `b`. */
  lemma CloseIsLeastGridBox(b: Box, w: nat, h: nat)
    requires Natural(b)
    ensures OnGrid(Close(b, w, h), w, h) && Within(Clip(b, w, h), Close(b, w, h))
    ensures forall g :: OnGrid(g, w, h) && Within(Clip(b, w, h), g) ==> Within(Close(b, w, h), g)
  {
    hide AlignLo, AlignHi, ClampHi, Rem16;
    LowOnGrid(b.x1, 0);
    LowOnGrid(b.y1, 0);
    HighOnGrid(b.x2, w);
    HighOnGrid(b.y2, h);
    forall g | OnGrid(g, w, h) && Within(Clip(b, w, h), g)
      ensures Within(Close(b, w, h), g)
    {
      LowOnGrid(b.x1, g.x1);
      LowOnGrid(b.y1, g.y1);
      LeastHigh(b.x2, w, g.x2);
      LeastHigh(b.y2, h, g.y2);
    }
  }

  lemma LowOnGrid(v: int, g: int)
    requires 0 <= v
    ensures AlignLo(v) % 16 == 0 && AlignLo(v) <= v
    ensures g % 16 == 0 && g <= v ==> g <= AlignLo(v)
  {
  }

  lemma HighOnGrid(v: int, limit: nat)
    requires 0 <= v
    ensures var c := ClampHi(AlignHi(v), limit);
            Min(v, limit) <= c && (c == limit || (c % 16 == 0 && c <= limit))
  {
  }

  lemma LeastHigh(v: int, limit: nat, g: int)
    requires 0 <= v && Min(v, limit) <= g && (g == limit || (g % 16 == 0 && g <= limit))
    ensures ClampHi(AlignHi(v), limit) <= g
  {
  }

  lemma AlignFixed(v: int)
    requires 0 <= v
    ensures AlignLo(AlignLo(v)) == AlignLo(v) && 0 <= AlignLo(v) <= v
    ensures AlignHi(AlignHi(v)) == AlignHi(v) && v <= AlignHi(v)
  {
  }

  lemma HighIdempotent(v: int, limit: nat)
    requires 0 <= v
    ensures ClampHi(AlignHi(ClampHi(AlignHi(v), limit)), limit) == ClampHi(AlignHi(v), limit)
  {
    AlignFixed(v);
    AlignFixed(limit);
  }

  lemma CloseIdempotent(b: Box, w: nat, h: nat)
    requires Natural(b)
    ensures Close(Close(b, w, h), w, h) == Close(b, w, h) && Natural(Close(b, w, h))
  {
    HighIdempotent(b.x2, w);
    HighIdempotent(b.y2, h);
    AlignFixed(b.x1);
    AlignFixed(b.y1);
    AlignFixed(b.x2);
    AlignFixed(b.y2);
  }

  lemma CloseLanded(b: Box, w: nat, h: nat)
    requires Landed(b, h)
    ensures Landed(Close(b, w, h), h) && Close(b, w, h).x2 <= w && Close(b, w, h).y2 <= h
  {
    CloseIdempotent(b, w, h);
    AlignFixed(b.x1);
    AlignFixed(b.y1);
    AlignFixed(b.y2);
  }

  /** Which pending boxes a refresh turns into one that is the right way round. */
  predicate Upright(b: Box, w: nat, h: nat) {
    AlignLo(b.x1) <= w && AlignLo(b.x1) <= AlignHi(b.x2) && AlignLo(b.y1) <= h && AlignLo(b.y1) <= AlignHi(b.y2)
  }

  /** For a box that is itself the right way round this says that its aligned top-left corner
      is on the surface or on its far edge. */
  lemma PublishedProperIff(b: Box, w: nat, h: nat)
    requires Natural(b)
    ensures Proper(Close(b, w, h)) <==> Upright(b, w, h)
    ensures Proper(b) ==> (Upright(b, w, h) <==> Anchored(b, w, h))
  {
    AlignFixed(b.x1);
    AlignFixed(b.y1);
    AlignFixed(b.x2);
    AlignFixed(b.y2);
  }

  /** Closing early and then joining is absorbed by closing once at the end. */
  lemma CloseAbsorbsJoin(a: Box, b: Box, w: nat, h: nat)
    requires Natural(a) && Natural(b)
    ensures Close(Join(Close(a, w, h), b), w, h) == Close(Join(a, b), w, h)
  {
    AxisAbsorbs(a.x1, a.x2, b.x1, b.x2, w);
    AxisAbsorbs(a.y1, a.y2, b.y1, b.y2, h);
  }

  lemma AxisAbsorbs(a1: int, a2: int, b1: int, b2: int, limit: nat)
    requires 0 <= a1 && 0 <= a2 && 0 <= b1 && 0 <= b2
    ensures AlignLo(Min(AlignLo(a1), b1)) == AlignLo(Min(a1, b1))
    ensures ClampHi(AlignHi(Max(ClampHi(AlignHi(a2), limit), b2)), limit) == ClampHi(AlignHi(Max(a2, b2)), limit)
  {
    AlignHiJoin(a1, b1);
    AlignFixed(a1);
    AlignHiJoin(AlignLo(a1), b1);
    HighAbsorbs(a2, b2, limit);
  }

  lemma HighAbsorbs(a: int, b: int, limit: nat)
    requires 0 <= a && 0 <= b
    ensures ClampHi(AlignHi(Max(ClampHi(AlignHi(a), limit), b)), limit) == ClampHi(AlignHi(Max(a, b)), limit)
  {
    var c := ClampHi(AlignHi(a), limit);
    AlignFixed(a);
    AlignFixed(b);
    AlignFixed(limit);
    AlignHiJoin(a, b);
    AlignHiJoin(c, b);
  }

  /** Joining the closed box with itself, as refresh does on line 273, changes nothing. */
  lemma SelfExpandIsNoOp(b: Box)
    ensures Expand(b, b.x1, b.y1, b.x2 - b.x1, b.y2 - b.y1) == b
  {
  }

  lemma JoinLanded(a: Box, b: Box, h: nat)
    requires Landed(a, h) && Landed(b, h)
    ensures Landed(Join(a, b), h)
  {
    AlignHiJoin(a.y1, b.y1);
  }

  lemma JoinAnchored(a: Box, b: Box, w: nat, h: nat)
    requires Anchored(a, w, h) && Anchored(b, w, h)
    ensures Anchored(Join(a, b), w, h)
  {
    AlignHiJoin(a.x1, b.x1);
    AlignHiJoin(a.y1, b.y1);
  }

  /** The bounding box of a non-empty list of boxes, folded in report order. */
  function JoinAll(bs: seq<Box>): (r: Box)
    requires |bs| > 0
  {
    if |bs| == 1 then bs[0] else Join(JoinAll(bs[..|bs| - 1]), bs[|bs| - 1])
  }

  ghost predicate IsBoundOf(r: Box, bs: seq<Box>) {
    forall b :: b in bs ==> Within(b, r)
  }

  /** `JoinAll` is the least upper bound: it contains every box, and every box that
      contains them all contains it. */
  lemma {:induction false} JoinAllIsLeastBound(bs: seq<Box>, r: Box)
    requires |bs| > 0
    ensures IsBoundOf(JoinAll(bs), bs)
    ensures IsBoundOf(r, bs) ==> Within(JoinAll(bs), r)
    ensures (forall b :: b in bs ==> Natural(b)) ==> Natural(JoinAll(bs))
  {
    var n := |bs| - 1;
    if n > 0 {
      JoinAllIsLeastBound(bs[..n], r);
      assert bs == bs[..n] + [bs[n]];
      assert bs[n] in bs && forall b :: b in bs[..n] ==> b in bs;
    } else {
      assert bs[0] in bs;
    }
  }

  /** Order and repetition of reports do not matter. */
  lemma JoinAllOrderFree(cs: seq<Box>, bs: seq<Box>)
    requires |cs| > 0 && |bs| > 0
    requires forall b :: b in cs <==> b in bs
    ensures JoinAll(cs) == JoinAll(bs)
  {
    JoinAllIsLeastBound(cs, JoinAll(bs));
    JoinAllIsLeastBound(bs, JoinAll(cs));
  }
}
