/** The packed bit map (lib/bitmap.cc): `numBits` flags kept in an array of 32-bit words,
    used to hand out disk sectors, memory frames and process slots. */
module Bitmaps {
  import opened Words

  const BITS_IN_WORD := 32

  function DivRoundUp(n: nat, s: nat): nat
    requires s > 0
  {
    n / s + if n % s > 0 then 1 else 0
  }

  /** Bit `which` of a word array. */
  ghost predicate Flag(ws: seq<word>, which: nat)
    requires which < 32 * |ws|
  {
    Bit(ws[which / 32], which % 32)
  }

  /** What a word array says is free among the first `n` positions: the clear flags. */
  ghost function FreeOf(ws: seq<word>, n: nat): (free: set<int>)
    requires n <= 32 * |ws|
  {
    set i | 0 <= i < n && !Flag(ws, i)
  }

  /** `1 << i` */
  function Mask(i: nat): (m: word)
    requires i < 32
    ensures m == Pow2(i)
  {
    Pow2Less(i, 32);
    Pow2of32();
    Pow2(i)
  }

  function OrWord(x: word, y: word): (r: word)
    ensures r == Or(x, y)
  {
    Pow2of32();
    OrBound(x, y, 32);
    Or(x, y)
  }

  function AndWord(x: word, y: word): (r: word)
    ensures r == And(x, y)
  {
    AndBound(x, y);
    And(x, y)
  }

  lemma SetFlag(ws: seq<word>, which: nat, j: nat)
    requires which < 32 * |ws| && j < 32 * |ws|
    ensures Flag(ws[which / 32 := OrWord(ws[which / 32], Mask(which % 32))], j) == (j == which || Flag(ws, j))
  {
    OrBit(ws[which / 32], Pow2(which % 32), j % 32);
    Pow2Bit(which % 32, j % 32);
  }

  lemma ClearFlag(ws: seq<word>, which: nat, j: nat)
    requires which < 32 * |ws| && j < 32 * |ws|
    ensures Flag(ws[which / 32 := AndWord(ws[which / 32], Not(Mask(which % 32)))], j) == (j != which && Flag(ws, j))
  {
    AndBit(ws[which / 32], Not(Mask(which % 32)), j % 32);
    NotBit(Mask(which % 32), j % 32);
    Pow2Bit(which % 32, j % 32);
  }

  class Bitmap {
    const numBits: nat
    const words: array<word>
    ghost var free: set<int>    // the clear positions

    ghost predicate Valid()
      reads this, words
    {
      && numBits > 0 && words.Length == DivRoundUp(numBits, BITS_IN_WORD)
      && (forall i :: i in free ==> 0 <= i < numBits)
      && (forall i {:trigger Flag(words[..], i)} :: 0 <= i < numBits ==> (Flag(words[..], i) <==> i !in free))
    }

    /** The ghost set is exactly what the packed words say. */
    lemma FreeIsPacked()
      requires Valid()
      ensures free == FreeOf(words[..], numBits)
    {
      forall i ensures i in free <==> i in FreeOf(words[..], numBits) {
        if 0 <= i < numBits {
          assert Flag(words[..], i) <==> i !in free;
        }
      }
    }

    constructor (numItems: nat)
      requires numItems > 0
      ensures Valid() && fresh(words)
      ensures numBits == numItems && forall i :: i in free <==> 0 <= i < numItems
    {
      numBits := numItems;
      words := new word[DivRoundUp(numItems, BITS_IN_WORD)](_ => 0);
      free := FreeOf(seq(DivRoundUp(numItems, BITS_IN_WORD), _ => 0), numItems);
      new;
      forall i | 0 <= i < numItems ensures i in free && !Flag(words[..], i) {
        ZeroBit(i % 32);
      }
      for i := 0 to numBits
        invariant Valid() && fresh(words)
        invariant forall k :: k in free <==> 0 <= k < numBits
      {
        Clear(i);
      }
    }

    method Mark(which: int)
      requires Valid() && 0 <= which < numBits
      modifies this, words
      ensures Valid() && free == old(free) - {which}
    {
      ghost var before := words[..];
      words[which / 32] := OrWord(words[which / 32], Mask(which % 32));
      free := free - {which};
      assert words[..] == before[which / 32 := OrWord(before[which / 32], Mask(which % 32))];
      forall j | 0 <= j < numBits ensures Flag(words[..], j) <==> j !in free {
        SetFlag(before, which, j);
      }
    }

    method Clear(which: int)
      requires Valid() && 0 <= which < numBits
      modifies this, words
      ensures Valid() && free == old(free) + {which}
    {
      ghost var before := words[..];
      words[which / 32] := AndWord(words[which / 32], Not(Mask(which % 32)));
      free := free + {which};
      assert words[..] == before[which / 32 := AndWord(before[which / 32], Not(Mask(which % 32)))];
      forall j | 0 <= j < numBits ensures Flag(words[..], j) <==> j !in free {
        ClearFlag(before, which, j);
      }
    }

    method Test(which: int) returns (r: bool)
      requires Valid() && 0 <= which < numBits
      ensures r <==> which !in free
    {
      r := AndWord(words[which / 32], Mask(which % 32)) != 0;
      TestOneBit(words[which / 32], which % 32);
      assert Flag(words[..], which) <==> which !in free;
    }

    /** Hands out the lowest clear bit; -1, with nothing changed, exactly when there is none. */
    method FindAndSet() returns (r: int)
      requires Valid()
      modifies this, words
      ensures Valid()
      ensures r == -1 <==> old(free) == {}
      ensures r == -1 ==> free == old(free)
      ensures r != -1 ==> r in old(free) && free == old(free) - {r} && forall i :: i in old(free) ==> r <= i
    {
      for i := 0 to numBits
        invariant Valid() && free == old(free)
        invariant forall k :: k in free ==> i <= k
      {
        var used := Test(i);
        if !used {
          Mark(i);
          return i;
        }
      }
      return -1;
    }

    method NumClear() returns (count: nat)
      requires Valid()
      ensures count == |free|
    {
      count := 0;
      ghost var seen: set<int> := {};
      for i := 0 to numBits
        invariant seen <= free && forall k :: k in free ==> (k in seen <==> k < i)
        invariant count == |seen|
      {
        var used := Test(i);
        if !used {
          count := count + 1;
          seen := seen + {i};
        }
      }
      assert seen == free;
    }
  }
}
