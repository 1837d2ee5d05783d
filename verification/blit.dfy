/** The two ways XineramaGetImageData copies one scratch box into the image. */
module Blit {
  import opened ByteBits

  /** `after` is `before` with the `w` bits from `q` on replaced by those of `src` from `p` on. */
  ghost predicate Blitted(before: seq<Byte>, after: seq<Byte>, q: nat, src: seq<Byte>, p: nat, w: nat) {
    && |after| == |before|
    && forall n: nat :: FlatBit(after, n) == if q <= n < q + w then FlatBit(src, p + n - q) else FlatBit(before, n)
  }

  /** The same with rows: a `w` by `h` box of bits is placed at bit column `x` of row `y`. */
  ghost predicate BoxWritten(before: seq<Byte>, after: seq<Byte>, pitch: nat, x: nat, y: nat,
                             src: seq<Byte>, srcPitch: nat, w: nat, h: nat)
  {
    && |after| == |before|
    && forall r: nat, b: nat | b < 8 * pitch ::
         RowBit(after, pitch, r, b) == if y <= r < y + h && x <= b < x + w
                                       then RowBit(src, srcPitch, r - y, b - x)
                                       else RowBit(before, pitch, r, b)
  }

  /** No bit of the box is set; the planar path ORs into a cleared image. */
  ghost predicate BoxClear(mem: seq<Byte>, pitch: nat, x: nat, y: nat, w: nat, h: nat) {
    forall r: nat, b: nat | y <= r < y + h && x <= b < x + w :: !RowBit(mem, pitch, r, b)
  }

  lemma BoxWrittenStep(before: seq<Byte>, mid: seq<Byte>, after: seq<Byte>, pitch: nat, x: nat, y: nat,
                       src: seq<Byte>, srcPitch: nat, w: nat, j: nat)
    requires x + w <= 8 * pitch
    requires BoxWritten(before, mid, pitch, x, y, src, srcPitch, w, j)
    requires Blitted(mid, after, 8 * RowStart(pitch, y + j) + x, src, 8 * RowStart(srcPitch, j), w)
    ensures BoxWritten(before, after, pitch, x, y, src, srcPitch, w, j + 1)
  {
    hide FlatBit, RowStart;
    forall r: nat, b: nat | b < 8 * pitch
      ensures RowBit(after, pitch, r, b) == if y <= r < y + j + 1 && x <= b < x + w
                                            then RowBit(src, srcPitch, r - y, b - x)
                                            else RowBit(before, pitch, r, b)
    {
      var n, q := 8 * RowStart(pitch, r) + b, 8 * RowStart(pitch, y + j) + x;
      assert FlatBit(after, n) == if q <= n < q + w then FlatBit(src, 8 * RowStart(srcPitch, j) + n - q) else FlatBit(mid, n);
      assert RowBit(mid, pitch, r, b) == FlatBit(mid, n);
      if r < y + j {
        RowsInOrder(pitch, r, y + j);
      } else if y + j < r {
        RowsInOrder(pitch, y + j, r);
      }
    }
  }

  method Memcpy(dst: array<Byte>, d: nat, src: array<Byte>, s: nat, bytes: nat)
    requires dst != src
    requires d + bytes <= dst.Length && s + bytes <= src.Length
    modifies dst
    ensures Blitted(old(dst[..]), dst[..], 8 * d, src[..], 8 * s, 8 * bytes)
  {
    hide Bit;
    forall k | 0 <= k < bytes {
      dst[d + k] := src[s + k];
    }
  }

  lemma CopyByte(m0: seq<Byte>, m1: seq<Byte>, m2: seq<Byte>, d: nat, src: seq<Byte>, s: nat, shift: nat)
    requires 0 < shift < 8 && d + 1 < |m0| && s < |src|
    requires m1 == m0[d := m0[d] | ShiftL(src[s], shift)]
    requires m2 == m1[d + 1 := m1[d + 1] | ShiftR(src[s], 8 - shift)]
    ensures forall n: nat :: FlatBit(m2, n) ==
              (FlatBit(m0, n) || (8 * d + shift <= n < 8 * d + shift + 8 && FlatBit(src, 8 * s + n - 8 * d - shift)))
  {
    hide FlatBit;
    forall n: nat
      ensures FlatBit(m2, n) ==
                (FlatBit(m0, n) || (8 * d + shift <= n < 8 * d + shift + 8 && FlatBit(src, 8 * s + n - 8 * d - shift)))
    {
      OrLow(m0, d, src, s, shift, n);
      OrHigh(m1, d + 1, src, s, shift, n);
    }
  }

  /** CopyBits: ORs `bytes` bytes of `src` into `dst`, `shiftL` bits further right. */
  method CopyBits(dst: array<Byte>, d: nat, shiftL: nat, src: array<Byte>, s: nat, bytes: nat)
    requires dst != src
    requires 0 < shiftL < 8
    requires d + bytes < dst.Length && s + bytes <= src.Length
    modifies dst
    ensures forall n: nat :: FlatBit(dst[..], n) ==
              (FlatBit(old(dst[..]), n)
               || (8 * d + shiftL <= n < 8 * (d + bytes) + shiftL && FlatBit(src[..], 8 * s + n - 8 * d - shiftL)))
  {
    hide FlatBit, Bit, ShiftL, ShiftR;
    var shiftR := 8 - shiftL;
    var left: nat, to: nat, from: nat := bytes, d, s;
    while left != 0
      invariant left <= bytes && to == d + bytes - left && from == s + bytes - left
      invariant forall n: nat :: FlatBit(dst[..], n) ==
                  (FlatBit(old(dst[..]), n)
                   || (8 * d + shiftL <= n < 8 * to + shiftL && FlatBit(src[..], 8 * s + n - 8 * d - shiftL)))
    {
      left := left - 1;
      ghost var m0 := dst[..];
      dst[to] := dst[to] | ShiftL(src[from], shiftL);
      ghost var m1 := dst[..];
      dst[to + 1] := dst[to + 1] | ShiftR(src[from], shiftR);
      CopyByte(m0, m1, dst[..], to, src[..], from, shiftL);
      to, from := to + 1, from + 1;
    }
  }

  /** Behind a source byte whose last pixel is set, SHIFT_R of a signed byte sets the bits up to the end of the byte. */
  predicate SmearedBy(d: nat, shift: nat, src: seq<Byte>, s: nat, k: nat, n: nat) {
    FlatBit(src, 8 * (s + k) + 7) && 8 * (d + k + 1) + shift <= n < 8 * (d + k + 1) + 8
  }

  predicate Smeared(d: nat, shift: nat, src: seq<Byte>, s: nat, bytes: nat, n: nat) {
    exists k: nat | k < bytes :: SmearedBy(d, shift, src, s, k, n)
  }

  predicate Copied(before: seq<Byte>, d: nat, shift: nat, src: seq<Byte>, s: nat, bytes: nat, n: nat) {
    FlatBit(before, n) || (8 * d + shift <= n < 8 * (d + bytes) + shift && FlatBit(src, 8 * s + n - 8 * d - shift))
  }

  lemma OneMoreSmeared(d: nat, shift: nat, src: seq<Byte>, s: nat, bytes: nat, n: nat)
    ensures Smeared(d, shift, src, s, bytes + 1, n) <==>
            Smeared(d, shift, src, s, bytes, n) || SmearedBy(d, shift, src, s, bytes, n)
  {
    hide SmearedBy;
  }

  lemma CopySignedByte(m0: seq<Byte>, m1: seq<Byte>, m2: seq<Byte>, d: nat, src: seq<Byte>, s: nat, shift: nat, n: nat)
    requires 0 < shift < 8 && d + 1 < |m0| && s < |src|
    requires m1 == m0[d := m0[d] | ShiftL(src[s], shift)]
    requires m2 == m1[d + 1 := m1[d + 1] | SignedShiftR(src[s], 8 - shift)]
    ensures FlatBit(m2, n) ==
              (FlatBit(m0, n) || (8 * d + shift <= n < 8 * d + shift + 8 && FlatBit(src, 8 * s + n - 8 * d - shift))
               || SmearedBy(d, shift, src, s, 0, n))
  {
    hide FlatBit, ShiftL, SignedShiftR;
    OrLow(m0, d, src, s, shift, n);
    OrSigned(m1, d + 1, src, s, shift, n);
  }

  lemma OneMoreCopied(before: seq<Byte>, d: nat, shift: nat, src: seq<Byte>, s: nat, bytes: nat, n: nat)
    ensures Copied(before, d, shift, src, s, bytes + 1, n) <==>
            Copied(before, d, shift, src, s, bytes, n)
            || (8 * (d + bytes) + shift <= n < 8 * (d + bytes) + shift + 8
                && FlatBit(src, 8 * (s + bytes) + n - 8 * (d + bytes) - shift))
    ensures SmearedBy(d + bytes, shift, src, s + bytes, 0, n) <==> SmearedBy(d, shift, src, s, bytes, n)
  {
    hide FlatBit;
    assert 8 * (s + bytes) + n - 8 * (d + bytes) - shift == 8 * s + n - 8 * d - shift;
  }

  lemma NothingSmeared(before: seq<Byte>, d: nat, shift: nat, src: seq<Byte>, s: nat)
    ensures forall n: nat :: Copied(before, d, shift, src, s, 0, n) == FlatBit(before, n) && !Smeared(d, shift, src, s, 0, n)
  {}

  /** The same code where `char` is signed. */
  method CopySignedBits(dst: array<Byte>, d: nat, shiftL: nat, src: array<Byte>, s: nat, bytes: nat)
    requires dst != src
    requires 0 < shiftL < 8
    requires d + bytes < dst.Length && s + bytes <= src.Length
    modifies dst
    ensures forall n: nat :: FlatBit(dst[..], n) ==
              (Copied(old(dst[..]), d, shiftL, src[..], s, bytes, n) || Smeared(d, shiftL, src[..], s, bytes, n))
  {
    hide FlatBit, Bit, ShiftL, SignedShiftR;
    var shiftR := 8 - shiftL;
    ghost var before := dst[..];
    hide Smeared, Copied, SmearedBy;
    NothingSmeared(before, d, shiftL, src[..], s);
    for i := 0 to bytes
      invariant forall n: nat :: FlatBit(dst[..], n) ==
                  (Copied(before, d, shiftL, src[..], s, i, n) || Smeared(d, shiftL, src[..], s, i, n))
    {
      ghost var m0 := dst[..];
      dst[d + i] := dst[d + i] | ShiftL(src[s + i], shiftL);
      ghost var m1 := dst[..];
      dst[d + i + 1] := dst[d + i + 1] | SignedShiftR(src[s + i], shiftR);
      forall n: nat
        ensures FlatBit(dst[..], n) == (Copied(before, d, shiftL, src[..], s, i + 1, n) || Smeared(d, shiftL, src[..], s, i + 1, n))
      {
        CopySignedByte(m0, m1, dst[..], d + i, src[..], s + i, shiftL, n);
        OneMoreCopied(before, d, shiftL, src[..], s, i, n);
        OneMoreSmeared(d, shiftL, src[..], s, i, n);
      }
    }
  }

  /** Bit `t` of the byte behind source byte `k` is set before, or by the next source byte. */
  predicate SetAnyway(before: seq<Byte>, d: nat, shift: nat, src: seq<Byte>, s: nat, bytes: nat, k: nat, t: nat)
    requires shift <= t
  {
    FlatBit(before, 8 * (d + k + 1) + t) || (k + 1 < bytes && FlatBit(src, 8 * (s + k + 1) + t - shift))
  }

  /**
    * Signed bytes do no harm if and only if, behind every source byte whose last pixel is set, the bits from the
    * shift up to the end of the byte are set anyway.
    */
  lemma SignedCopyIff(before: seq<Byte>, d: nat, shift: nat, src: seq<Byte>, s: nat, bytes: nat)
    requires 0 < shift < 8
    ensures (forall n: nat | Smeared(d, shift, src, s, bytes, n) :: Copied(before, d, shift, src, s, bytes, n)) <==>
            forall k: nat, t: nat | k < bytes && shift <= t < 8 && FlatBit(src, 8 * (s + k) + 7) ::
              SetAnyway(before, d, shift, src, s, bytes, k, t)
  {
    hide FlatBit;
    if forall n: nat | Smeared(d, shift, src, s, bytes, n) :: Copied(before, d, shift, src, s, bytes, n) {
      forall k: nat, t: nat | k < bytes && shift <= t < 8 && FlatBit(src, 8 * (s + k) + 7)
        ensures SetAnyway(before, d, shift, src, s, bytes, k, t)
      {
        var n := 8 * (d + k + 1) + t;
        assert SmearedBy(d, shift, src, s, k, n);
        assert Copied(before, d, shift, src, s, bytes, n);
        assert 8 * s + n - 8 * d - shift == 8 * (s + k + 1) + t - shift;
      }
    } else {
      var n: nat :| Smeared(d, shift, src, s, bytes, n) && !Copied(before, d, shift, src, s, bytes, n);
      var k: nat :| k < bytes && SmearedBy(d, shift, src, s, k, n);
      var t := n - 8 * (d + k + 1);
      assert 8 * s + n - 8 * d - shift == 8 * (s + k + 1) + t - shift;
      assert !SetAnyway(before, d, shift, src, s, bytes, k, t);
    }
  }

  /** One signed byte with its last pixel set smears over the clear byte behind it. */
  lemma SignedByteSmears(before: seq<Byte>, src: seq<Byte>)
    requires before == [0, 0] && src == [0x80]
    ensures Smeared(0, 1, src, 0, 1, 9) && !Copied(before, 0, 1, src, 0, 1, 9)
  {
    assert SmearedBy(0, 1, src, 0, 0, 9);
  }

  /** The whole bytes of one row of the planar path. */
  method BlitBytes(data: array<Byte>, index: nat, shift: nat, scratch: array<Byte>, index2: nat, w: nat)
    requires data != scratch
    requires shift < 8
    requires 8 * index + shift + 8 * w <= 8 * data.Length
    requires index2 + w <= scratch.Length
    requires forall n: nat | 8 * index + shift <= n < 8 * index + shift + 8 * w :: !FlatBit(data[..], n)
    modifies data
    ensures Blitted(old(data[..]), data[..], 8 * index + shift, scratch[..], 8 * index2, 8 * w)
  {
    hide FlatBit;
    if w > 0 {
      if shift == 0 {
        Memcpy(data, index, scratch, index2, w);
      } else {
        CopyBits(data, index, shift, scratch, index2, w);
      }
    }
  }

  lemma Leftover(m0: seq<Byte>, m1: seq<Byte>, m2: seq<Byte>, d: nat, shift: nat, src: seq<Byte>, s: nat, leftover: nat)
    requires shift < 8 && 0 < leftover < 8 && s < |src|
    requires 8 * d + shift + leftover <= 8 * |m0|
    requires forall n: nat | 8 * s + leftover <= n < 8 * s + 8 :: !FlatBit(src, n)
    requires m1 == m0[d := m0[d] | ShiftL(src[s], shift)]
    requires m2 == if shift + leftover > 8 then m1[d + 1 := m1[d + 1] | ShiftR(src[s], 8 - shift)] else m1
    ensures forall n: nat :: FlatBit(m2, n) ==
              (FlatBit(m0, n) || (8 * d + shift <= n < 8 * d + shift + leftover && FlatBit(src, 8 * s + n - 8 * d - shift)))
  {
    hide FlatBit;
    forall n: nat
      ensures FlatBit(m2, n) ==
                (FlatBit(m0, n) || (8 * d + shift <= n < 8 * d + shift + leftover && FlatBit(src, 8 * s + n - 8 * d - shift)))
    {
      OrLow(m0, d, src, s, shift, n);
      if shift + leftover > 8 {
        OrHigh(m1, d + 1, src, s, shift, n);
      }
    }
  }

  /** One row of the planar path: `w` whole bytes and then `leftover` bits, at bit `shift` of byte `index`. */
  method BlitBitRow(data: array<Byte>, index: nat, shift: nat, scratch: array<Byte>, index2: nat, w: nat, leftover: nat)
    requires data != scratch
    requires shift < 8 && leftover < 8
    requires 8 * index + shift + 8 * w + leftover <= 8 * data.Length
    requires 8 * index2 + 8 * w + leftover <= 8 * scratch.Length
    // the clean-up of the edge has cleared the rest of the last byte
    requires leftover > 0 ==>
      forall n: nat | 8 * (index2 + w) + leftover <= n < 8 * (index2 + w) + 8 :: !FlatBit(scratch[..], n)
    requires forall n: nat | 8 * index + shift <= n < 8 * index + shift + 8 * w + leftover :: !FlatBit(data[..], n)
    modifies data
    ensures Blitted(old(data[..]), data[..], 8 * index + shift, scratch[..], 8 * index2, 8 * w + leftover)
  {
    hide FlatBit, ShiftL, ShiftR;
    BlitBytes(data, index, shift, scratch, index2, w);
    if leftover > 0 {
      ghost var m0 := data[..];
      data[index + w] := data[index + w] | ShiftL(scratch[index2 + w], shift);
      ghost var m1 := data[..];
      if shift + leftover > 8 {
        data[index + w + 1] := data[index + w + 1] | ShiftR(scratch[index2 + w], 8 - shift);
      }
      Leftover(m0, m1, data[..], index + w, shift, scratch[..], index2 + w, leftover);
    }
  }

  /** In the first `j` scratch rows the bits of byte `w` from `leftover` on are 0; the rest is as before. */
  ghost predicate EdgeClean(before: seq<Byte>, mem: seq<Byte>, pitch: nat, w: nat, leftover: nat, j: nat) {
    && |mem| == |before|
    && forall r: nat, b: nat | b < 8 * pitch ::
         RowBit(mem, pitch, r, b) ==
         (RowBit(before, pitch, r, b) && !(r < j && 8 * w + leftover <= b < 8 * w + 8))
  }

  lemma CleanEdgeStep(before: seq<Byte>, m0: seq<Byte>, m1: seq<Byte>, pitch: nat, j: nat, w: nat, leftover: nat)
    requires leftover < 8 && w < pitch
    requires RowStart(pitch, j) + w < |m0|
    requires m1 == m0[RowStart(pitch, j) + w := m0[RowStart(pitch, j) + w] & (ShiftL(1, leftover) - 1)]
    requires EdgeClean(before, m0, pitch, w, leftover, j)
    ensures EdgeClean(before, m1, pitch, w, leftover, j + 1)
  {
    hide RowStart, Bit, ShiftL;
    forall r: nat, b: nat | b < 8 * pitch
      ensures RowBit(m1, pitch, r, b) ==
              (RowBit(m0, pitch, r, b) && !(r == j && 8 * w + leftover <= b < 8 * w + 8))
    {
      if r < j {
        RowsInOrder(pitch, r, j);
      } else if j < r {
        RowsInOrder(pitch, j, r);
      } else if b / 8 == w {
        MaskBit(m0[RowStart(pitch, j) + w], leftover, b % 8);
      }
    }
  }

  lemma RowStartStep(pitch: nat, j: nat)
    ensures RowStart(pitch, 0) == 0
    ensures RowStart(pitch, j + 1) == RowStart(pitch, j) + pitch
  {}

  lemma RowInBounds(pitch: nat, r: nat, h: nat)
    requires r < h
    ensures RowStart(pitch, r) + pitch <= RowStart(pitch, h)
  {
    RowsInOrder(pitch, r, h);
  }

  /** The clean-up of the edge. */
  method CleanEdge(scratch: array<Byte>, scratchPitch: nat, w: nat, h: nat, leftover: nat)
    requires 0 < leftover < 8 && w < scratchPitch
    requires RowStart(scratchPitch, h) <= scratch.Length
    modifies scratch
    ensures EdgeClean(old(scratch[..]), scratch[..], scratchPitch, w, leftover, h)
  {
    var mask := ShiftL(1, leftover) - 1;
    var j, k := 0, w;
    while j < h
      invariant 0 <= j <= h && k == RowStart(scratchPitch, j) + w
      invariant EdgeClean(old(scratch[..]), scratch[..], scratchPitch, w, leftover, j)
    {
      hide RowStart, EdgeClean, ShiftL;
      RowStartStep(scratchPitch, j);
      RowInBounds(scratchPitch, j, h);
      ghost var m0 := scratch[..];
      scratch[k] := scratch[k] & mask;
      CleanEdgeStep(old(scratch[..]), m0, scratch[..], scratchPitch, j, w, leftover);
      j, k := j + 1, k + scratchPitch;
    }
  }

  lemma RowStartIs(pitch: nat, y: nat, scratchPitch: nat)
    ensures RowStart(pitch, y) == pitch * y && RowStart(scratchPitch, 0) == 0
  {}

  /** Rows not yet written are still clear, and the last byte of a cleaned scratch row holds `leftover` bits. */
  lemma RowReady(before: seq<Byte>, mid: seq<Byte>, pitch: nat, x: nat, y: nat,
                 src: seq<Byte>, srcPitch: nat, w: nat, j: nat, h: nat)
    requires j < h && x + w <= 8 * pitch && w <= 8 * srcPitch
    requires BoxClear(before, pitch, x, y, w, h)
    requires BoxWritten(before, mid, pitch, x, y, src, srcPitch, w, j)
    requires w % 8 > 0 ==> forall r: nat, b: nat | r < h && w <= b < w - w % 8 + 8 :: !RowBit(src, srcPitch, r, b)
    ensures forall n: nat | 8 * RowStart(pitch, y + j) + x <= n < 8 * RowStart(pitch, y + j) + x + w :: !FlatBit(mid, n)
    ensures w % 8 > 0 ==>
      forall n: nat | 8 * RowStart(srcPitch, j) + w <= n < 8 * RowStart(srcPitch, j) + w - w % 8 + 8 :: !FlatBit(src, n)
  {
    hide RowStart, FlatBit;
    forall n: nat | 8 * RowStart(pitch, y + j) + x <= n < 8 * RowStart(pitch, y + j) + x + w
      ensures !FlatBit(mid, n)
    {
      var b := n - 8 * RowStart(pitch, y + j);
      assert RowBit(mid, pitch, y + j, b) == RowBit(before, pitch, y + j, b);
    }
    if w % 8 > 0 {
      forall n: nat | 8 * RowStart(srcPitch, j) + w <= n < 8 * RowStart(srcPitch, j) + w - w % 8 + 8
        ensures !FlatBit(src, n)
      {
        assert !RowBit(src, srcPitch, j, n - 8 * RowStart(srcPitch, j));
      }
    }
  }

  /** The depth 1 branch: one scratch box ORed into the cleared image at bit column `x0` of row `y`. */
  method BlitBitBox(data: array<Byte>, pitch: nat, scratch: array<Byte>, scratchPitch: nat, x0: nat, y: nat, w0: nat, h: nat)
    requires data != scratch
    requires x0 + w0 <= 8 * pitch && RowStart(pitch, y + h) <= data.Length
    requires w0 <= 8 * scratchPitch && RowStart(scratchPitch, h) <= scratch.Length
    requires BoxClear(data[..], pitch, x0, y, w0, h)
    modifies data, scratch
    ensures BoxWritten(old(data[..]), data[..], pitch, x0, y, old(scratch[..]), scratchPitch, w0, h)
  {
    hide RowStart, FlatBit;
    var shift, x := x0 % 8, x0 / 8;
    var leftover, w := w0 % 8, w0 / 8;
    if leftover > 0 {
      CleanEdge(scratch, scratchPitch, w, h, leftover);
    }
    ghost var clean := scratch[..];
    var j, index, index2 := 0, pitch * y + x, 0;
    RowStartIs(pitch, y, scratchPitch);
    while j < h
      invariant 0 <= j <= h
      invariant index == RowStart(pitch, y + j) + x && index2 == RowStart(scratchPitch, j)
      invariant scratch[..] == clean
      invariant BoxWritten(old(data[..]), data[..], pitch, x0, y, clean, scratchPitch, w0, j)
    {
      RowStartStep(pitch, y + j);
      RowStartStep(scratchPitch, j);
      RowInBounds(pitch, y + j, y + h);
      RowInBounds(scratchPitch, j, h);
      ghost var mid := data[..];
      RowReady(old(data[..]), mid, pitch, x0, y, clean, scratchPitch, w0, j, h);
      BlitBitRow(data, index, shift, scratch, index2, w, leftover);
      BoxWrittenStep(old(data[..]), mid, data[..], pitch, x0, y, clean, scratchPitch, w0, j);
      j, index, index2 := j + 1, index + pitch, index2 + scratchPitch;
    }
  }

  /** The byte branch: rows of `w` bytes are copied to byte column `x` of row `y`. */
  method BlitByteBox(data: array<Byte>, pitch: nat, scratch: array<Byte>, scratchPitch: nat, x: nat, y: nat, w: nat, h: nat)
    requires data != scratch
    requires x + w <= pitch && RowStart(pitch, y + h) <= data.Length
    requires w <= scratchPitch && RowStart(scratchPitch, h) <= scratch.Length
    modifies data
    ensures BoxWritten(old(data[..]), data[..], pitch, 8 * x, y, scratch[..], scratchPitch, 8 * w, h)
  {
    hide FlatBit;
    for j := 0 to h
      invariant BoxWritten(old(data[..]), data[..], pitch, 8 * x, y, scratch[..], scratchPitch, 8 * w, j)
    {
      RowInBounds(pitch, y + j, y + h);
      RowInBounds(scratchPitch, j, h);
      ghost var mid := data[..];
      Memcpy(data, pitch * (y + j) + x, scratch, scratchPitch * j, w);
      BoxWrittenStep(old(data[..]), mid, data[..], pitch, 8 * x, y, scratch[..], scratchPitch, 8 * w, j);
    }
  }
}
