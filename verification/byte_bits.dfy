/** Bits of bytes and of byte buffers, least significant bit first. */
module ByteBits {
  type Byte = bv8

  /** Bit `t` of `v`, where bit 0 is the leftmost pixel of an LSB-first image. */
  function Bit(v: Byte, t: nat): bool {
    match t
    case 0 => v & 0x01 != 0
    case 1 => v & 0x02 != 0
    case 2 => v & 0x04 != 0
    case 3 => v & 0x08 != 0
    case 4 => v & 0x10 != 0
    case 5 => v & 0x20 != 0
    case 6 => v & 0x40 != 0
    case 7 => v & 0x80 != 0
    case _ => false
  }

  /** SHIFT_L of the little-endian build; bits shifted out of the byte are lost. */
  function ShiftL(v: Byte, s: nat): Byte {
    match s
    case 0 => v
    case 1 => v << 1
    case 2 => v << 2
    case 3 => v << 3
    case 4 => v << 4
    case 5 => v << 5
    case 6 => v << 6
    case 7 => v << 7
    case _ => 0
  }

  /** SHIFT_R of the little-endian build. */
  function ShiftR(v: Byte, s: nat): Byte {
    match s
    case 0 => v
    case 1 => v >> 1
    case 2 => v >> 2
    case 3 => v >> 3
    case 4 => v >> 4
    case 5 => v >> 5
    case 6 => v >> 6
    case 7 => v >> 7
    case _ => 0
  }

  /** SHIFT_R where `char` is signed: a byte with bit 7 set is filled up with ones. */
  function SignedShiftR(v: Byte, s: nat): Byte {
    if Bit(v, 7) then ShiftR(v, s) | !ShiftR(0xff, s) else ShiftR(v, s)
  }

  /** Bit `n` of the buffer read as one long bit string. */
  function FlatBit(mem: seq<Byte>, n: nat): bool {
    n / 8 < |mem| && Bit(mem[n / 8], n % 8)
  }

  /** The byte at which row `r` starts when rows are `pitch` bytes apart. */
  function RowStart(pitch: nat, r: nat): nat {
    pitch * r
  }

  /** Bit `b` of row `r`. */
  function RowBit(mem: seq<Byte>, pitch: nat, r: nat, b: nat): bool {
    FlatBit(mem, 8 * RowStart(pitch, r) + b)
  }

  lemma OrMask(a: Byte, v: Byte, m: Byte)
    ensures (a | v) & m != 0 <==> a & m != 0 || v & m != 0
  {}

  lemma OrBit(a: Byte, v: Byte, t: nat)
    ensures Bit(a | v, t) == (Bit(a, t) || Bit(v, t))
  {
    match t {
      case 0 => OrMask(a, v, 0x01);
      case 1 => OrMask(a, v, 0x02);
      case 2 => OrMask(a, v, 0x04);
      case 3 => OrMask(a, v, 0x08);
      case 4 => OrMask(a, v, 0x10);
      case 5 => OrMask(a, v, 0x20);
      case 6 => OrMask(a, v, 0x40);
      case 7 => OrMask(a, v, 0x80);
      case _ =>
    }
  }

  lemma ShiftLBit(v: Byte, s: nat, t: nat)
    requires t < 8
    ensures Bit(ShiftL(v, s), t) == (s <= t && Bit(v, t - s))
  {}

  lemma ShiftRBit(v: Byte, s: nat, t: nat)
    requires t < 8
    ensures Bit(ShiftR(v, s), t) == (t + s < 8 && Bit(v, t + s))
  {}

  lemma FilledBit(s: nat, t: nat)
    requires t < 8 && s < 8
    ensures Bit(!ShiftR(0xff, s), t) == (t + s >= 8)
  {}

  lemma SignedShiftRBit(v: Byte, s: nat, t: nat)
    requires t < 8 && 0 < s < 8
    ensures Bit(SignedShiftR(v, s), t) == if t + s < 8 then Bit(v, t + s) else Bit(v, 7)
  {
    ShiftRBit(v, s, t);
    OrBit(ShiftR(v, s), !ShiftR(0xff, s), t);
    FilledBit(s, t);
  }

  lemma MaskBit(a: Byte, l: nat, t: nat)
    requires l < 8 && t < 8
    ensures Bit(a & (ShiftL(1, l) - 1), t) == (t < l && Bit(a, t))
  {}

  lemma ByteBit(src: seq<Byte>, s: nat, k: nat)
    requires s < |src| && k < 8
    ensures FlatBit(src, 8 * s + k) == Bit(src[s], k)
  {
    hide Bit;
  }

  /** ORing SHIFT_L of byte `s` into byte `d` adds its low `8 - shift` bits from bit `8 * d + shift` on. */
  lemma OrLow(mem: seq<Byte>, d: nat, src: seq<Byte>, s: nat, shift: nat, n: nat)
    requires d < |mem| && s < |src| && shift < 8
    ensures FlatBit(mem[d := mem[d] | ShiftL(src[s], shift)], n)
         == (FlatBit(mem, n) || (8 * d + shift <= n < 8 * d + 8 && FlatBit(src, 8 * s + n - 8 * d - shift)))
  {
    hide Bit, ShiftL;
    if n / 8 == d {
      OrBit(mem[d], ShiftL(src[s], shift), n % 8);
      ShiftLBit(src[s], shift, n % 8);
      if shift <= n % 8 {
        ByteBit(src, s, n % 8 - shift);
      }
    }
  }

  /** ORing SHIFT_R of byte `s` by `8 - shift` into byte `d` adds its high `shift` bits from bit `8 * d` on. */
  lemma OrHigh(mem: seq<Byte>, d: nat, src: seq<Byte>, s: nat, shift: nat, n: nat)
    requires d < |mem| && s < |src| && shift < 8
    ensures FlatBit(mem[d := mem[d] | ShiftR(src[s], 8 - shift)], n)
         == (FlatBit(mem, n) || (8 * d <= n < 8 * d + shift && FlatBit(src, 8 * s + n - 8 * d + 8 - shift)))
  {
    hide Bit, ShiftR;
    if n / 8 == d {
      OrBit(mem[d], ShiftR(src[s], 8 - shift), n % 8);
      ShiftRBit(src[s], 8 - shift, n % 8);
      if n % 8 < shift {
        ByteBit(src, s, n % 8 + 8 - shift);
      }
    }
  }

  /** With signed bytes it fills the rest of byte `d` with ones if bit 7 of byte `s` is set. */
  lemma OrSigned(mem: seq<Byte>, d: nat, src: seq<Byte>, s: nat, shift: nat, n: nat)
    requires d < |mem| && s < |src| && 0 < shift < 8
    ensures FlatBit(mem[d := mem[d] | SignedShiftR(src[s], 8 - shift)], n)
         == (FlatBit(mem, n) || (8 * d <= n < 8 * d + shift && FlatBit(src, 8 * s + n - 8 * d + 8 - shift))
             || (8 * d + shift <= n < 8 * d + 8 && FlatBit(src, 8 * s + 7)))
  {
    hide Bit, SignedShiftR;
    if n / 8 == d {
      OrBit(mem[d], SignedShiftR(src[s], 8 - shift), n % 8);
      SignedShiftRBit(src[s], 8 - shift, n % 8);
      ByteBit(src, s, 7);
      if n % 8 < shift {
        ByteBit(src, s, n % 8 + 8 - shift);
      }
    }
  }

  /** Rows do not overlap. */
  lemma {:induction false} RowsInOrder(pitch: nat, r: nat, r': nat)
    requires r < r'
    ensures RowStart(pitch, r) + pitch <= RowStart(pitch, r')
    decreases r'
  {
    if r + 1 < r' {
      RowsInOrder(pitch, r, r' - 1);
    }
  }
}
