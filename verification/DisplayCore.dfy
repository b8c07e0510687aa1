/** The display structure of the framebuffer library as a value, and what each of its
    entry points does to it (lib/src/rdpmux.c). */
module DisplayCore {
  import opened Bytes
  import opened Boxes

  /** A framebuffer of 32-bit pixels, rows stored without padding. */
  datatype Surface = Surface(width: nat, height: nat, format: int, data: seq<byte>)

  /** `MuxUpdate`: a type tag and the parameters that go with it. */
  datatype Update =
    | Invalid
    | DisplayUpdate(box: Box)
    | DisplaySwitch(shmFd: int, format: int, w: int, h: int)

  datatype Core = Core(
    surface: Surface,
    shmFd: int,
    shm: seq<byte>,
    dirty: Update,
    out: Update,
    outReady: bool)

  const MAX_WIDTH := 4096
  const MAX_HEIGHT := 2048
  const PIXEL_SIZE := 4
  const SHM_SIZE := MAX_WIDTH * MAX_HEIGHT * PIXEL_SIZE

  predicate ValidSurface(s: Surface) {
    s.width <= MAX_WIDTH && s.height <= MAX_HEIGHT && |s.data| == s.height * Scanline(s)
  }

  /** Scanline length in bytes. */
  function Scanline(s: Surface): nat {
    s.width * PIXEL_SIZE
  }

  /** Buffers have the sizes that the code assumes. */
  predicate Shaped(c: Core) {
    && ValidSurface(c.surface)
    && (c.shmFd >= 0 ==> |c.shm| == SHM_SIZE)
    && (c.shmFd < 0 ==> c.surface.width == 0 && c.surface.height == 0)
  }

  predicate ValidCore(c: Core) {
    && Shaped(c)
    && (c.dirty.DisplayUpdate? ==> Landed(c.dirty.box, c.surface.height))
  }

  /** Before the first switch there is neither a surface nor shared memory. */
  const InitCore := Core(Surface(0, 0, 0, []), -1, [], Invalid, Invalid, false)

  /** `mux_display_update`. */
  function Report(c: Core, x: int, y: int, w: int, h: int): Core {
    match c.dirty
    case Invalid => c.(dirty := DisplayUpdate(OfRect(x, y, w, h)))
    case DisplayUpdate(b) => c.(dirty := DisplayUpdate(Expand(b, x, y, w, h)))
    case DisplaySwitch(_, _, _, _) => c
  }

  function Blank(): seq<byte> {
    seq(SHM_SIZE, _ => 0)
  }

  /** `mux_display_switch` up to and including its memcpy; `fd` is what `shm_open` returns
      when the shared memory does not exist yet. */
  function SwitchCopy(c: Core, s: Surface, fd: nat): Core
    requires (c.shmFd >= 0 ==> |c.shm| == SHM_SIZE) && ValidSurface(s)
  {
    var mapped := if c.shmFd < 0 then Blank() else c.shm;
    SurfaceFitsShm(s);
    c.(surface := s, shmFd := if c.shmFd < 0 then fd else c.shmFd, shm := s.data + mapped[|s.data|..])
  }

  /** The critical section of `mux_display_switch`. */
  function SwitchPublish(c: Core): Core {
    c.(out := DisplaySwitch(c.shmFd, c.surface.format, c.surface.width, c.surface.height), outReady := true)
  }

  /** Rows `y1 <= y < y2` taken from `src`, the rest from `dst`. */
  function CopyRows(dst: seq<byte>, src: seq<byte>, step: nat, y1: nat, y2: nat): seq<byte>
    requires y1 <= y2 && y2 * step <= |src| && |src| <= |dst|
  {
    Scale(y1, y2, step);
    dst[..y1 * step] + src[y1 * step..y2 * step] + dst[y2 * step..]
  }

  /** The rows that a refresh copies exist: its height argument is not negative and its
      last row is on the surface. */
  predicate RefreshInBounds(c: Core) {
    c.dirty.DisplayUpdate? ==>
      var b := Close(c.dirty.box, c.surface.width, c.surface.height);
      0 <= b.y1 <= b.y2 <= c.surface.height
  }

  /** `mux_display_refresh`; `locked` says whether `pthread_mutex_trylock` succeeded. */
  function Refresh(c: Core, locked: bool): Core
    requires c.dirty.DisplayUpdate? ==> Shaped(c) && RefreshInBounds(c) && c.shmFd >= 0
  {
    if c.dirty.DisplayUpdate? then
      var b := Close(c.dirty.box, c.surface.width, c.surface.height);
      var aligned := c.(dirty := DisplayUpdate(Expand(b, b.x1, b.y1, b.x2 - b.x1, b.y2 - b.y1)));
      if locked then
        RowsFit(c.surface, b.y2);
        var copied := aligned.(shm := CopyRows(c.shm, c.surface.data, Scanline(c.surface), b.y1, b.y2));
        if !copied.outReady && copied.out.Invalid? then
          copied.(out := copied.dirty, outReady := true, dirty := Invalid)
        else copied
      else aligned
    else c
  }

  /** The critical section of `mux_mainloop`: the slot is emptied if it was ready. */
  function Drain(c: Core): Core {
    if c.outReady then c.(out := Invalid, outReady := false) else c
  }

  lemma Scale(a: nat, b: nat, c: nat)
    requires a <= b
    ensures 0 <= a * c <= b * c
  {
    assert (b - a) * c >= 0;
    assert b * c == a * c + (b - a) * c;
  }

  lemma RowsFit(s: Surface, y: nat)
    requires ValidSurface(s) && y <= s.height
    ensures y * Scanline(s) <= |s.data| <= SHM_SIZE
  {
    Scale(y, s.height, Scanline(s));
    SurfaceFitsShm(s);
  }

  lemma SurfaceFitsShm(s: Surface)
    requires ValidSurface(s)
    ensures |s.data| <= SHM_SIZE
  {
    Scale(s.height, MAX_HEIGHT, Scanline(s));
  }

  lemma NothingToRefresh(c: Core, locked: bool)
    requires !c.dirty.DisplayUpdate?
    ensures Refresh(c, locked) == c
  {
  }

  /** What a refresh may write, byte by byte. Without the lock it touches neither the shared
      memory nor the slot; with it, exactly the rows of the aligned box are taken from the
      surface. */
  lemma RefreshWrites(c: Core, locked: bool)
    requires ValidCore(c) && (c.dirty.DisplayUpdate? ==> c.shmFd >= 0 && RefreshInBounds(c))
    ensures var t := Refresh(c, locked);
            && t.surface == c.surface && t.shmFd == c.shmFd && |t.shm| == |c.shm|
            && (!locked || !c.dirty.DisplayUpdate? ==> t.shm == c.shm && t.out == c.out && t.outReady == c.outReady)
            && (!c.dirty.DisplayUpdate? ==> t == c)
    ensures c.dirty.DisplayUpdate? ==>
              var t, b, step := Refresh(c, locked), c.dirty.box, c.surface.width * 4;
              var top, bottom := b.y1 / 16 * 16, Min((b.y2 + 15) / 16 * 16, c.surface.height);
              && (locked ==> bottom * step <= |c.surface.data| <= |c.shm| && forall i :: 0 <= i < |c.shm| ==>
                    t.shm[i] == if top * step <= i < bottom * step then c.surface.data[i] else c.shm[i])
              && var u := DisplayUpdate(Box(b.x1 / 16 * 16, top, Min((b.x2 + 15) / 16 * 16, c.surface.width), bottom));
                 if locked && !c.outReady && c.out.Invalid?
                 then t.out == u && t.outReady && t.dirty == Invalid
                 else t.dirty == u && t.out == c.out && t.outReady == c.outReady
  {
    if c.dirty.DisplayUpdate? {
      var b := Close(c.dirty.box, c.surface.width, c.surface.height);
      CloseByGrid(c.dirty.box, c.surface.width, c.surface.height);
      SelfExpandIsNoOp(b);
      RowsFit(c.surface, b.y2);
      Scale(b.y1, b.y2, Scanline(c.surface));
    }
  }

  /** What a switch writes: the front of the shared memory becomes the new surface, the rest
      keeps its old bytes, or zeros if it was just created; the dirty box stays. */
  lemma SwitchWrites(c: Core, s: Surface, fd: nat)
    requires (c.shmFd >= 0 ==> |c.shm| == SHM_SIZE) && ValidSurface(s)
    ensures var t := SwitchPublish(SwitchCopy(c, s, fd));
            && t.surface == s && t.dirty == c.dirty && t.shmFd == (if c.shmFd < 0 then fd else c.shmFd)
            && t.out == DisplaySwitch(t.shmFd, s.format, s.width, s.height) && t.outReady
            && |s.data| <= |t.shm| == SHM_SIZE
            && forall i :: 0 <= i < SHM_SIZE ==>
                 t.shm[i] == if i < |s.data| then s.data[i] else if c.shmFd < 0 then 0 else c.shm[i]
  {
    SurfaceFitsShm(s);
  }

  /** A pending box makes the next refresh copy existing rows exactly when its aligned top
      edge is not below the surface. */
  lemma RefreshInBoundsIff(c: Core)
    requires c.dirty.DisplayUpdate? && Natural(c.dirty.box) && c.dirty.box.y1 <= c.dirty.box.y2
    ensures RefreshInBounds(c) <==> AlignLo(c.dirty.box.y1) <= c.surface.height
  {
  }

  lemma AnchoredInBounds(c: Core)
    requires ValidCore(c)
    ensures RefreshInBounds(c)
  {
    if c.dirty.DisplayUpdate? {
      RefreshInBoundsIff(c);
    }
  }

  /** `mux_display_switch` leaves the dirty box alone, so a switch to a shorter surface can
      strand it: 600 rows are replaced by 300 while row 400 is dirty. */
  lemma SwitchCanStrandBox(tall: Surface, short: Surface)
    requires ValidSurface(tall) && tall.width == 400 && tall.height == 600
    requires ValidSurface(short) && short.width == 400 && short.height == 300
    ensures var before := Report(SwitchCopy(InitCore, tall, 3), 0, 400, 10, 10);
            ValidCore(before) && RefreshInBounds(before) && !RefreshInBounds(SwitchCopy(before, short, 3))
  {
    SurfaceFitsShm(tall);
  }

  /** A switch to a narrower surface strands the box in the other direction: 800 columns are
      replaced by 400 while column 600 is dirty. The rows exist, so the refresh goes ahead, and
      publishes a box of width -192. */
  lemma NarrowSwitchInvertsBox(wide: Surface, narrow: Surface)
    requires ValidSurface(wide) && wide.width == 800 && wide.height == 600
    requires ValidSurface(narrow) && narrow.width == 400 && narrow.height == 600
    ensures var before := Report(SwitchCopy(InitCore, wide, 3), 600, 0, 10, 10);
            var after := SwitchCopy(before, narrow, 3);
            && ValidCore(before) && ValidCore(after) && RefreshInBounds(after)
            && Refresh(after, true).out == DisplayUpdate(Box(592, 0, 400, 16))
  {
    SurfaceFitsShm(wide);
    SurfaceFitsShm(narrow);
  }

  /** Byte offset of a pixel. */
  function Offset(w: nat, x: nat, y: nat): nat {
    y * (w * PIXEL_SIZE) + x * PIXEL_SIZE
  }

  predicate OnSurface(s: Surface, x: int, y: int) {
    0 <= x < s.width && 0 <= y < s.height
  }

  lemma PixelInRow(w: nat, h: nat, x: nat, y: nat)
    requires x < w && y < h
    ensures y * (w * PIXEL_SIZE) <= Offset(w, x, y)
    ensures Offset(w, x, y) + PIXEL_SIZE <= (y + 1) * (w * PIXEL_SIZE) <= h * (w * PIXEL_SIZE)
  {
    Scale(y + 1, h, w * PIXEL_SIZE);
    assert (y + 1) * (w * PIXEL_SIZE) == y * (w * PIXEL_SIZE) + w * PIXEL_SIZE;
  }

  function PixelAt(buf: seq<byte>, s: Surface, x: int, y: int): seq<byte>
    requires OnSurface(s, x, y) && s.height * Scanline(s) <= |buf|
  {
    PixelInRow(s.width, s.height, x, y);
    buf[Offset(s.width, x, y)..Offset(s.width, x, y) + PIXEL_SIZE]
  }

  /** The shared-memory pixel agrees with the surface pixel. */
  predicate Synced(c: Core, x: int, y: int)
    requires ValidCore(c) && OnSurface(c.surface, x, y)
  {
    SurfaceFitsShm(c.surface);
    PixelAt(c.shm, c.surface, x, y) == PixelAt(c.surface.data, c.surface, x, y)
  }

  lemma Splice(dst: seq<byte>, src: seq<byte>, lo: nat, hi: nat, o: nat, n: nat)
    requires lo <= hi <= |src| <= |dst| && o + n <= |src| && n > 0
    requires o + n <= lo || lo <= o <= o + n <= hi || hi <= o
    ensures var after := dst[..lo] + src[lo..hi] + dst[hi..];
            after[o..o + n] == if lo <= o && o + n <= hi then src[o..o + n] else dst[o..o + n]
  {
    var after := dst[..lo] + src[lo..hi] + dst[hi..];
    var piece := if lo <= o && o + n <= hi then src[o..o + n] else dst[o..o + n];
    forall i | o <= i < o + n
      ensures after[i] == piece[i - o]
    {
    }
    assert after[o..o + n] == piece;
  }

  lemma CopyRowsPixel(dst: seq<byte>, s: Surface, y1: nat, y2: nat, x: int, y: int)
    requires ValidSurface(s) && |dst| >= |s.data| && y1 <= y2 <= s.height && OnSurface(s, x, y)
    requires y2 * Scanline(s) <= |s.data|
    ensures var after := CopyRows(dst, s.data, Scanline(s), y1, y2);
            && |after| == |dst|
            && PixelAt(after, s, x, y) == if y1 <= y < y2 then PixelAt(s.data, s, x, y) else PixelAt(dst, s, x, y)
  {
    var step := Scanline(s);
    Scale(y1, y2, step);
    PixelInRow(s.width, s.height, x, y);
    if y < y1 {
      Scale(y + 1, y1, step);
    } else if y < y2 {
      Scale(y1, y, step);
      Scale(y + 1, y2, step);
    } else {
      Scale(y2, y, step);
    }
    Splice(dst, s.data, y1 * step, y2 * step, Offset(s.width, x, y), PIXEL_SIZE);
  }
}
