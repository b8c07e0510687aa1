/** `mux_copy_pixels`: one block copy for full-width strips, a row loop otherwise. */
module PixelCopy {
  import opened Bytes

  /** Byte `col` of row `row` of a rectangle that starts at `off` in a buffer with the
      given scanline length. */
  function At(off: int, step: int, row: int, col: int): int {
    off + row * step + col
  }

  ghost predicate InRect(i: int, off: int, step: int, rows: int, cols: int) {
    exists r, c :: 0 <= r < rows && 0 <= c < cols && i == At(off, step, r, c)
  }

  ghost predicate RectFits(len: nat, off: int, step: int, rows: int, cols: int) {
    forall r, c :: 0 <= r < rows && 0 <= c < cols ==> 0 <= At(off, step, r, c) < len
  }

  /** `after` is `before` with exactly the rectangle replaced by the source rectangle. */
  ghost predicate IsRectCopy(after: seq<byte>, before: seq<byte>, dOff: int, dStep: int,
                             src: seq<byte>, sOff: int, sStep: int, rows: int, cols: int)
  {
    && |after| == |before|
    && RectFits(|after|, dOff, dStep, rows, cols)
    && RectFits(|src|, sOff, sStep, rows, cols)
    && (forall r, c {:trigger At(dOff, dStep, r, c)} :: 0 <= r < rows && 0 <= c < cols ==>
          after[At(dOff, dStep, r, c)] == src[At(sOff, sStep, r, c)])
    && (forall i :: 0 <= i < |after| && !InRect(i, dOff, dStep, rows, cols) ==> after[i] == before[i])
  }

  method Memcpy(dst: array<byte>, d: int, src: array<byte>, s: int, n: int)
    requires dst != src
    requires 0 <= n && (n > 0 ==> 0 <= d && d + n <= dst.Length && 0 <= s && s + n <= src.Length)
    modifies dst
    ensures forall i :: d <= i < d + n ==> dst[i] == src[i - d + s]
    ensures forall i :: 0 <= i < dst.Length && !(d <= i < d + n) ==> dst[i] == old(dst[i])
  {
    var k := 0;
    while k < n
      invariant 0 <= k <= n
      invariant forall i :: d <= i < d + k ==> dst[i] == src[i - d + s]
      invariant forall i :: 0 <= i < dst.Length && !(d <= i < d + k) ==> dst[i] == old(dst[i])
    {
      dst[d + k] := src[s + k];
      k := k + 1;
    }
  }

  method CopyPixels(dst: array<byte>, dstStep: int, xDst: int, yDst: int, width: int, height: int,
                    src: array<byte>, srcStep: int, xSrc: int, ySrc: int, bpp: nat)
    requires dst != src && 0 <= width && 0 <= height
    requires var size := (bpp + 7) / 8;
             && width * size <= dstStep
             && (width * size > 0 ==> srcStep > 0)
             && RectFits(dst.Length, yDst * dstStep + xDst * size, dstStep, height, width * size)
             && RectFits(src.Length, ySrc * srcStep + xSrc * size, srcStep, height, width * size)
    modifies dst
    ensures var size := (bpp + 7) / 8;
            IsRectCopy(dst[..], old(dst[..]), yDst * dstStep + xDst * size, dstStep,
                       src[..], ySrc * srcStep + xSrc * size, srcStep, height, width * size)
  {
    var pixelSize := (bpp + 7) / 8;
    var lineSize := width * pixelSize;
    var sOff := ySrc * srcStep + xSrc * pixelSize;
    var dOff := yDst * dstStep + xDst * pixelSize;
    if srcStep == dstStep && lineSize == srcStep {
      StripBounds(dst.Length, dOff, lineSize, height);
      StripBounds(src.Length, sOff, lineSize, height);
      Memcpy(dst, dOff, src, sOff, lineSize * height);
      StripIsRect(dst[..], old(dst[..]), dOff, src[..], sOff, height, lineSize);
    } else {
      RowLoop(dst, dOff, dstStep, src, sOff, srcStep, height, lineSize);
    }
  }

  /** The line-by-line branch: two cursors advanced until the source cursor passes its end. */
  method RowLoop(dst: array<byte>, dOff: int, dstStep: int, src: array<byte>, sOff: int, srcStep: int,
                 height: int, lineSize: int)
    requires dst != src && 0 <= height && 0 <= lineSize <= dstStep && (lineSize > 0 ==> srcStep > 0)
    requires RectFits(dst.Length, dOff, dstStep, height, lineSize)
    requires RectFits(src.Length, sOff, srcStep, height, lineSize)
    modifies dst
    ensures IsRectCopy(dst[..], old(dst[..]), dOff, dstStep, src[..], sOff, srcStep, height, lineSize)
  {
    var pSrc, pDst := sOff, dOff;
    var pEnd := sOff + srcStep * height;
    ghost var row := 0;
    while pSrc < pEnd
      invariant pSrc == sOff + row * srcStep && pDst == dOff + row * dstStep
      invariant 0 <= row <= height
      invariant IsRectCopy(dst[..], old(dst[..]), dOff, dstStep, src[..], sOff, srcStep, row, lineSize)
      decreases pEnd - pSrc
    {
      CursorAdvances(srcStep, row, height);
      RowBounds(dst.Length, dOff, dstStep, height, lineSize, row);
      RowBounds(src.Length, sOff, srcStep, height, lineSize, row);
      ghost var before := dst[..];
      Memcpy(dst, pDst, src, pSrc, lineSize);
      AddRow(dst[..], before, old(dst[..]), dOff, dstStep, src[..], sOff, srcStep, height, row, lineSize);
      pSrc := pSrc + srcStep;
      pDst := pDst + dstStep;
      row := row + 1;
    }
    if lineSize > 0 {
      CursorDone(srcStep, row, height);
    }
  }

  lemma Sign(d: int, c: int)
    ensures d >= 0 && c >= 0 ==> d * c >= 0
    ensures d >= 0 && c <= 0 ==> d * c <= 0
  {
  }

  lemma Product(a: int, b: int, c: int)
    ensures a * c == c * a
    ensures a > b && c > 0 ==> a * c - b * c >= c
    ensures a >= b && c >= 0 ==> a * c >= b * c
    ensures a >= b && c <= 0 ==> a * c <= b * c
  {
    Sign(a - b, c);
    Sign(a - b - 1, c);
    assert (a - b) * c == a * c - b * c;
    assert (a - b - 1) * c == a * c - b * c - c;
  }

  lemma CursorAdvances(step: int, row: int, height: int)
    requires 0 <= row <= height && row * step < step * height
    ensures row < height && step > 0
  {
    Product(height, row, step);
  }

  lemma CursorDone(step: int, row: int, height: int)
    requires 0 <= row <= height && step > 0 && row * step >= step * height
    ensures row == height
  {
    Product(height, row, step);
  }

  lemma RowBounds(len: nat, off: int, step: int, rows: int, cols: int, row: int)
    requires 0 <= row < rows && RectFits(len, off, step, rows, cols)
    ensures cols > 0 ==> 0 <= off + row * step && off + row * step + cols <= len
  {
    if cols > 0 {
      assert 0 <= At(off, step, row, 0) < len;
      assert 0 <= At(off, step, row, cols - 1) < len;
    }
  }

  lemma AddRow(after: seq<byte>, mid: seq<byte>, before: seq<byte>, dOff: int, dStep: int,
               src: seq<byte>, sOff: int, sStep: int, rows: int, row: int, cols: int)
    requires 0 <= row < rows && 0 <= cols <= dStep
    requires IsRectCopy(mid, before, dOff, dStep, src, sOff, sStep, row, cols)
    requires |after| == |mid|
    requires RectFits(|after|, dOff, dStep, rows, cols) && RectFits(|src|, sOff, sStep, rows, cols)
    requires cols > 0 ==> 0 <= dOff + row * dStep && dOff + row * dStep + cols <= |after|
    requires cols > 0 ==> 0 <= sOff + row * sStep && sOff + row * sStep + cols <= |src|
    requires forall i :: dOff + row * dStep <= i < dOff + row * dStep + cols ==>
                           after[i] == src[i - (dOff + row * dStep) + (sOff + row * sStep)]
    requires forall i :: 0 <= i < |after| && !(dOff + row * dStep <= i < dOff + row * dStep + cols) ==> after[i] == mid[i]
    ensures IsRectCopy(after, before, dOff, dStep, src, sOff, sStep, row + 1, cols)
  {
    forall r, c | 0 <= r < row + 1 && 0 <= c < cols
      ensures after[At(dOff, dStep, r, c)] == src[At(sOff, sStep, r, c)]
    {
      if r < row {
        RowsApart(dStep, r, row, c, cols);
      }
    }
    forall i | 0 <= i < |after| && !InRect(i, dOff, dStep, row + 1, cols)
      ensures after[i] == before[i]
    {
      RectGrows(i, dOff, dStep, row, cols);
    }
  }

  lemma RectGrows(i: int, off: int, step: int, row: int, cols: int)
    requires 0 <= row
    ensures off + row * step <= i < off + row * step + cols ==> InRect(i, off, step, row + 1, cols)
    ensures InRect(i, off, step, row, cols) ==> InRect(i, off, step, row + 1, cols)
  {
    if off + row * step <= i < off + row * step + cols {
      assert i == At(off, step, row, i - (off + row * step));
    }
  }

  lemma RowsApart(step: int, r: int, row: int, c: int, cols: int)
    requires 0 <= r < row && 0 <= c < cols <= step
    ensures r * step + c < row * step
  {
    Product(row, r, step);
  }

  /** In a strip the rows are contiguous. */
  lemma StripOffset(line: int, rows: int, r: int, c: int)
    requires 0 <= r < rows && 0 <= c < line
    ensures 0 <= r * line + c < line * rows
  {
    Product(rows, r, line);
    Product(r, 0, line);
  }

  lemma StripBounds(len: nat, off: int, line: int, rows: int)
    requires 0 <= line && 0 <= rows && RectFits(len, off, line, rows, line)
    ensures 0 <= line * rows
    ensures line * rows > 0 ==> 0 <= off && off + line * rows <= len
  {
    if line > 0 && rows > 0 {
      assert 0 <= At(off, line, 0, 0) < len;
      assert 0 <= At(off, line, rows - 1, line - 1) < len;
      assert (rows - 1) * line + line == line * rows;
    } else {
      assert line * rows == 0;
    }
  }

  lemma StripIsRect(after: seq<byte>, before: seq<byte>, dOff: int, src: seq<byte>, sOff: int, rows: int, line: int)
    requires 0 <= line && 0 <= rows && |after| == |before|
    requires RectFits(|after|, dOff, line, rows, line) && RectFits(|src|, sOff, line, rows, line)
    requires 0 <= line * rows && (line * rows > 0 ==> 0 <= dOff && dOff + line * rows <= |after| && 0 <= sOff && sOff + line * rows <= |src|)
    requires forall i :: dOff <= i < dOff + line * rows ==> after[i] == src[i - dOff + sOff]
    requires forall i :: 0 <= i < |after| && !(dOff <= i < dOff + line * rows) ==> after[i] == before[i]
    ensures IsRectCopy(after, before, dOff, line, src, sOff, line, rows, line)
  {
    forall r, c | 0 <= r < rows && 0 <= c < line
      ensures after[At(dOff, line, r, c)] == src[At(sOff, line, r, c)]
    {
      StripOffset(line, rows, r, c);
      assert after[At(dOff, line, r, c)] == src[At(dOff, line, r, c) - dOff + sOff];
    }
    forall i | 0 <= i < |after| && dOff <= i < dOff + line * rows
      ensures InRect(i, dOff, line, rows, line)
    {
      StripSplit(line, rows, i - dOff);
      var k := i - dOff;
      assert i == At(dOff, line, k / line, k % line);
    }
  }

  lemma StripSplit(line: int, rows: int, k: int)
    requires 0 <= line && 0 <= rows && 0 <= k < line * rows
    ensures line > 0 && 0 <= k / line < rows && 0 <= k % line < line && k == (k / line) * line + k % line
  {
    assert line != 0;
    Product(k / line, rows, line);
  }
}
