/** Value lists: one word for each bit set in a mask, the lowest bit first. */
module ValueLists {
  const WORD: nat := 0x1_0000_0000

  type Card32 = n: nat | n < WORD

  function Pow2(k: nat): (r: nat)
    ensures r > 0
  {
    if k == 0 then 1 else 2 * Pow2(k - 1)
  }

  /** Bit k of a mask. */
  predicate Has(mask: nat, k: nat) {
    if k == 0 then mask % 2 == 1 else Has(mask / 2, k - 1)
  }

  /** The operator & on masks. */
  function And(a: nat, b: nat): nat {
    if a == 0 || b == 0 then 0 else 2 * And(a / 2, b / 2) + (a % 2) * (b % 2)
  }

  /** The number of bits that are set. */
  function Ones(mask: nat): nat {
    if mask == 0 then 0 else Ones(mask / 2) + mask % 2
  }

  /** Where a value list keeps the value of bit k: Ones(mask & (bit - 1)). */
  function Slot(mask: nat, k: nat): nat {
    Ones(And(mask, Pow2(k) - 1))
  }

  function DecodeFrom(mask: nat, values: seq<Card32>, b: nat): map<nat, Card32>
    requires |values| == Ones(mask)
    decreases mask
  {
    if mask == 0 then map[]
    else if mask % 2 == 1 then DecodeFrom(mask / 2, values[1..], b + 1)[b := values[0]]
    else DecodeFrom(mask / 2, values, b + 1)
  }

  /** The values by bit number, read off as the server does it: the lowest bit takes the next value. */
  function Decode(mask: nat, values: seq<Card32>): map<nat, Card32>
    requires |values| == Ones(mask)
  {
    DecodeFrom(mask, values, 0)
  }

  /** The slots of two halves of a mask. */
  lemma SlotHalf(mask: nat, k: nat)
    ensures Slot(mask, 0) == 0
    ensures k > 0 ==> Slot(mask, k) == Slot(mask / 2, k - 1) + mask % 2
  {
    if k > 0 {
      var low := Pow2(k) - 1;
      assert low == 2 * (Pow2(k - 1) - 1) + 1;
      assert low / 2 == Pow2(k - 1) - 1 && low % 2 == 1;
      var half := And(mask / 2, low / 2);
      assert And(mask, low) == 2 * half + mask % 2;
      assert (2 * half + mask % 2) / 2 == half && (2 * half + mask % 2) % 2 == mask % 2;
    }
  }

  /** The slot of a bit that is set is inside the list. */
  lemma {:induction false} SlotInside(mask: nat, k: nat)
    ensures Slot(mask, k) <= Ones(mask)
    ensures Has(mask, k) ==> Slot(mask, k) < Ones(mask)
  {
    SlotHalf(mask, k);
    if k > 0 {
      SlotInside(mask / 2, k - 1);
    }
  }

  /** Different bits have different slots. */
  lemma {:induction false} SlotsIncrease(mask: nat, j: nat, k: nat)
    requires j < k && Has(mask, j)
    ensures Slot(mask, j) < Slot(mask, k)
  {
    SlotHalf(mask, j);
    SlotHalf(mask, k);
    if j > 0 {
      SlotsIncrease(mask / 2, j - 1, k - 1);
    }
  }

  lemma {:induction false} NoBits(k: nat)
    ensures !Has(0, k)
  {
    if k > 0 {
      NoBits(k - 1);
    }
  }

  lemma {:induction false} KeysFrom(mask: nat, values: seq<Card32>, b: nat)
    requires |values| == Ones(mask)
    ensures forall j | j in DecodeFrom(mask, values, b) :: j >= b
    decreases mask
  {
    if mask != 0 {
      KeysFrom(mask / 2, if mask % 2 == 1 then values[1..] else values, b + 1);
    }
  }

  /** What is found under bit k is the value in its slot, for the bits of the mask and for no other. */
  lemma {:induction false} DecodeIs(mask: nat, values: seq<Card32>, b: nat, k: nat)
    requires |values| == Ones(mask)
    ensures b + k in DecodeFrom(mask, values, b) <==> Has(mask, k)
    ensures Has(mask, k) ==> Slot(mask, k) < |values| && DecodeFrom(mask, values, b)[b + k] == values[Slot(mask, k)]
    decreases mask + k
  {
    SlotHalf(mask, k);
    KeysFrom(mask, values, b);
    if mask == 0 {
      NoBits(k);
    } else if k > 0 {
      var rest := if mask % 2 == 1 then values[1..] else values;
      DecodeIs(mask / 2, rest, b + 1, k - 1);
    } else if mask % 2 == 0 {
      KeysFrom(mask / 2, values, b + 1);
    }
  }

  /** Writing to the slot of bit k changes what is found under bit k, and nothing else. */
  lemma {:induction false} WriteSlot(mask: nat, values: seq<Card32>, b: nat, k: nat, v: Card32)
    requires |values| == Ones(mask) && Has(mask, k)
    ensures Slot(mask, k) < |values|
    ensures DecodeFrom(mask, values[Slot(mask, k) := v], b) == DecodeFrom(mask, values, b)[b + k := v]
    decreases mask + k
  {
    SlotHalf(mask, k);
    SlotInside(mask, k);
    if mask == 0 {
      NoBits(k);
    } else if k > 0 {
      if mask % 2 == 1 {
        WriteSlot(mask / 2, values[1..], b + 1, k - 1, v);
        assert values[Slot(mask, k) := v][1..] == values[1..][Slot(mask / 2, k - 1) := v];
      } else {
        WriteSlot(mask / 2, values, b + 1, k - 1, v);
      }
    } else {
      assert values[0 := v][1..] == values[1..];
    }
  }
}
