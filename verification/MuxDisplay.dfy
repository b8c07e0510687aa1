/** The library's global display structure and its entry points, updated in place. Each
    method is proved to perform the transition of the same name in `DisplayCore`. */
module MuxDisplay {
  import opened Bytes
  import opened Boxes
  import opened PixelCopy
  import opened DisplayCore
  import opened Options

  /** How far the creation of the shared memory got. */
  datatype ShmSetup = OpenFailed | TruncateFailed | MapFailed(fd: nat) | Mapped(fd: nat)

  /** The hypervisor's framebuffer. */
  class Image {
    const width: nat
    const height: nat
    const format: int
    const data: array<byte>

    constructor (width: nat, height: nat, format: int, data: array<byte>)
      ensures this.width == width && this.height == height && this.format == format && this.data == data
    {
      this.width, this.height, this.format, this.data := width, height, format, data;
    }

    ghost function Value(): Surface
      reads data
    {
      Surface(width, height, format, data[..])
    }
  }

  class Display {
    var surface: Image?
    var shmFd: int
    var shm: array?<byte>
    var dirty: Update
    var out: Update
    var outReady: bool

    /** The shared memory is there in full or not at all. A failed set-up keeps this, except
        after a failed mmap. */
    ghost predicate Mapped()
      reads this, shm
    {
      && (shm == null <==> shmFd < 0)
      && (shm != null ==> shm.Length == SHM_SIZE)
    }

    ghost predicate Valid()
      reads this, surface, if surface != null then {surface.data} else {}, shm
    {
      && Mapped()
      && (surface == null <==> shmFd < 0)
      && (surface != null && shm != null ==> surface.data != shm)
      && Shaped(Abs())
    }

    ghost function Abs(): Core
      reads this, surface, if surface != null then {surface.data} else {}, shm
    {
      Core(if surface == null then Surface(0, 0, 0, []) else surface.Value(),
           shmFd, if shm == null then [] else shm[..], dirty, out, outReady)
    }

    constructor ()
      ensures Valid() && Abs() == InitCore
      ensures surface == null && shmFd == -1 && shm == null && dirty == Invalid && out == Invalid && !outReady
    {
      surface, shmFd, shm := null, -1, null;
      dirty, out, outReady := Invalid, Invalid, false;
    }

    /** `mux_display_update`. */
    method Update(x: int, y: int, w: int, h: int)
      modifies this`dirty
      ensures Abs() == Report(old(Abs()), x, y, w, h)
      ensures old(dirty).Invalid? ==> dirty == DisplayUpdate(Box(x, y, x + w, y + h))
      ensures old(dirty).DisplayUpdate? ==>
                var b := old(dirty).box;
                dirty == DisplayUpdate(Box(Min(b.x1, x), Min(b.y1, y), Max(b.x2, x + w), Max(b.y2, y + h)))
      ensures old(Valid()) ==> Valid()
    {
      if dirty.Invalid? {
        dirty := DisplayUpdate(Box(x, y, x + w, y + h));
      } else {
        if !dirty.DisplayUpdate? {
          return;
        }
        ExpandRect(x, y, w, h);
      }
    }

    /** `mux_expand_rect` on the dirty update. */
    method ExpandRect(x: int, y: int, w: int, h: int)
      modifies this`dirty
      ensures dirty == if old(dirty).DisplayUpdate? then DisplayUpdate(Expand(old(dirty).box, x, y, w, h)) else old(dirty)
    {
      if !dirty.DisplayUpdate? {
        return;
      }
      var u := dirty.box;
      var newX2, newY2 := x + w, y + h;
      dirty := DisplayUpdate(Box(if u.x1 < x then u.x1 else x, if u.y1 < y then u.y1 else y,
                                 if u.x2 > newX2 then u.x2 else newX2, if u.y2 > newY2 then u.y2 else newY2));
    }

    /** `mux_display_switch`. When the shared memory cannot be set up the new surface is
        already installed and nothing is published; after a failed `shm_open` or `ftruncate`
        the next call tries again. */
    method Switch(image: Image, setup: ShmSetup) returns (done: bool)
      requires Mapped() && ValidSurface(image.Value()) && image.data != shm
      modifies this, shm
      ensures done <==> (old(shmFd) >= 0 || setup.Mapped?)
      ensures done ==> Valid()
      ensures done ==> Abs() == SwitchPublish(SwitchCopy(old(Abs()), old(image.Value()), if setup.Mapped? then setup.fd else 0))
      ensures surface == image && dirty == old(dirty)
      ensures done ==>
                && out == DisplaySwitch(shmFd, image.format, image.width, image.height) && outReady
                && shm != null && image.data.Length <= shm.Length == SHM_SIZE
                && forall i :: 0 <= i < SHM_SIZE ==>
                     shm[i] == if i < image.data.Length then image.data[i]
                               else if old(shmFd) < 0 then 0 else old(Abs()).shm[i]
      ensures !done ==>
                && surface == image && shm == null && dirty == old(dirty) && out == old(out) && outReady == old(outReady)
                && shmFd == (if setup.MapFailed? then setup.fd else old(shmFd))
                && (Mapped() <==> !setup.MapFailed?)
    {
      surface := image;
      SurfaceFitsShm(image.Value());
      if shmFd < 0 {
        match setup {
          case OpenFailed => return false;
          case TruncateFailed => return false;
          case MapFailed(fd) =>
            shmFd := fd;
            return false;
          case Mapped(fd) =>
            shmFd := fd;
            shm := new byte[SHM_SIZE](_ => 0);
            assert shm[..] == Blank();
        }
      }
      ghost var before := shm[..];
      Memcpy(shm, 0, image.data, 0, image.data.Length);
      assert shm[..] == image.data[..] + before[image.data.Length..];
      out := DisplaySwitch(shmFd, image.format, image.width, image.height);
      outReady := true;
      return true;
    }

    /** `mux_display_refresh`; `lockFree` is the outcome of `pthread_mutex_trylock`. Without the
        lock neither the shared memory nor the slot changes; with it, exactly the rows of the
        aligned box are taken from the surface. */
    method RefreshDisplay(lockFree: bool) returns (rate: int)
      requires dirty.DisplayUpdate? ==> Valid() && RefreshInBounds(Abs()) && shmFd >= 0
      modifies this`dirty, this`out, this`outReady, shm
      ensures Abs() == Refresh(old(Abs()), lockFree) && rate == 30
      ensures old(Valid()) ==> Valid()
      ensures !lockFree || !old(dirty).DisplayUpdate? ==>
                Abs().shm == old(Abs()).shm && out == old(out) && outReady == old(outReady)
      ensures lockFree && old(dirty).DisplayUpdate? && Landed(old(dirty).box, surface.height) ==>
                var b, step := old(dirty).box, surface.width * 4;
                var top, bottom := b.y1 / 16 * 16, Min((b.y2 + 15) / 16 * 16, surface.height);
                && bottom * step <= surface.data.Length <= shm.Length == |old(Abs()).shm|
                && forall i :: 0 <= i < shm.Length ==>
                     shm[i] == if top * step <= i < bottom * step then surface.data[i] else old(Abs()).shm[i]
    {
      hide Refresh, Close, RefreshInBounds;
      ghost var before := Abs();
      if dirty.DisplayUpdate? {
        SyncDirty(lockFree);
        if Landed(before.dirty.box, before.surface.height) {
          RefreshWrites(before, lockFree);
        }
      } else {
        NothingToRefresh(before, lockFree);
      }
      rate := 30;
    }

    /** A refresh with a pending box. */
    method SyncDirty(lockFree: bool)
      requires Valid() && dirty.DisplayUpdate? && RefreshInBounds(Abs()) && shmFd >= 0
      modifies this`dirty, this`out, this`outReady, shm
      ensures Valid() && Abs() == Refresh(old(Abs()), lockFree)
      ensures !lockFree ==> shm[..] == old(shm[..]) && out == old(out) && outReady == old(outReady)
    {
      AlignDirty();
      var u := dirty.box;
      var y, h := u.y1, u.y2 - u.y1;
      ExpandRect(u.x1, u.y1, u.x2 - u.x1, u.y2 - u.y1);
      SelfExpandIsNoOp(u);
      if lockFree {
        CopyStrip(y, h);
        if !outReady && out.Invalid? {
          out := dirty;
          outReady := true;
          dirty := Invalid;
        }
      }
    }

    /** The in-place alignment and clamping of the dirty box. */
    method AlignDirty()
      requires Valid() && dirty.DisplayUpdate? && shmFd >= 0
      modifies this`dirty
      ensures Valid()
      ensures dirty == DisplayUpdate(Close(old(dirty).box, surface.width, surface.height))
    {
      var u := dirty.box;
      if Rem16(u.x1) != 0 { u := u.(x1 := u.x1 - Rem16(u.x1)); }
      if Rem16(u.y1) != 0 { u := u.(y1 := u.y1 - Rem16(u.y1)); }
      if Rem16(u.x2) != 0 { u := u.(x2 := u.x2 + (16 - Rem16(u.x2))); }
      if Rem16(u.y2) != 0 { u := u.(y2 := u.y2 + (16 - Rem16(u.y2))); }
      if u.x2 < 0 || u.x2 > surface.width { u := u.(x2 := surface.width); }
      if u.y2 < 0 || u.y2 > surface.height { u := u.(y2 := surface.height); }
      dirty := DisplayUpdate(u);
    }

    /** The call of `mux_copy_pixels` inside refresh: `h` full-width rows from row `y`. */
    method CopyStrip(y: int, h: int)
      requires Valid() && shmFd >= 0 && 0 <= y && 0 <= h && y + h <= surface.height
      modifies shm
      ensures Valid() && y * (surface.width * PIXEL_SIZE) <= (y + h) * (surface.width * PIXEL_SIZE) <= surface.data.Length
      ensures surface.data.Length <= shm.Length
      ensures shm[..] == CopyRows(old(shm[..]), surface.data[..], surface.width * PIXEL_SIZE, y, y + h)
    {
      var step := surface.width * PIXEL_SIZE;
      RowsFit(surface.Value(), y + h);
      Scale(y, y + h, step);
      StripFits(shm.Length, step, y, h);
      StripFits(surface.data.Length, step, y, h);
      CopyPixels(shm, step, 0, y, surface.width, h, surface.data, step, 0, y, 32);
      RectIsRows(shm[..], old(shm[..]), surface.data[..], step, y, h);
    }

    /** The critical section of `mux_mainloop`. */
    method TakeOutgoing() returns (ready: bool, taken: Update)
      modifies this`out, this`outReady
      ensures Abs() == Drain(old(Abs()))
      ensures old(Valid()) ==> Valid()
      ensures ready == old(outReady) && taken == if ready then old(out) else Invalid
    {
      ready, taken := outReady, Invalid;
      if ready {
        taken := out;
        out := Invalid;
        outReady := false;
      }
    }
  }

  /** `mux_init_display_struct`: an identifier, if given, must have 36 characters and be copied;
      `copied` says whether `strdup` succeeds. */
  method InitDisplay(uuid: Option<string>, copied: bool) returns (d: Display?)
    ensures d == null <==> uuid.Some? && (|uuid.value| != 36 || !copied)
    ensures d != null ==> fresh(d) && d.Valid() && d.Abs() == InitCore
  {
    if uuid.Some? {
      if |uuid.value| != 36 {
        return null;
      }
      if !copied {
        return null;
      }
    }
    d := new Display();
  }

  lemma StripFits(len: nat, step: nat, y: nat, h: nat)
    requires (y + h) * step <= len
    ensures RectFits(len, y * step + 0 * PIXEL_SIZE, step, h, step)
  {
    forall r, c | 0 <= r < h && 0 <= c < step
      ensures 0 <= At(y * step, step, r, c) < len
    {
      Scale(y + r + 1, y + h, step);
      assert (y + r + 1) * step == y * step + r * step + step;
      assert 0 <= y * step && 0 <= r * step;
    }
  }

  /** A rectangle that spans full scanlines is a contiguous block of rows. */
  lemma RectIsRows(after: seq<byte>, before: seq<byte>, src: seq<byte>, step: nat, y: nat, h: nat)
    requires IsRectCopy(after, before, y * step, step, src, y * step, step, h, step)
    requires (y + h) * step <= |src| <= |before|
    ensures after == CopyRows(before, src, step, y, y + h)
  {
    Scale(y, y + h, step);
    assert (y + h) * step == y * step + step * h;
    var lo, hi := y * step, (y + h) * step;
    forall i | 0 <= i < |after|
      ensures after[i] == if lo <= i < hi then src[i] else before[i]
    {
      if lo <= i < hi {
        StripSplit(step, h, i - lo);
        assert i == At(lo, step, (i - lo) / step, (i - lo) % step);
      } else {
        OutsideStrip(i, lo, step, h);
      }
    }
  }

  lemma OutsideStrip(i: int, lo: int, step: nat, h: nat)
    requires !(lo <= i < lo + step * h)
    ensures !InRect(i, lo, step, h, step)
  {
    forall r, c | 0 <= r < h && 0 <= c < step
      ensures At(lo, step, r, c) != i
    {
      StripOffset(step, h, r, c);
    }
  }
}
