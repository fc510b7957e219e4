/** Bitmaps of 32-bit words: the registry of names and the ownership bits of semaphores. */
module NameRegistry {
  import opened PowersOfTwo
  import opened Bits
  import opened Words

  /** Bit n of the bitmap is set. */
  predicate IsSet(words: seq<nat>, n: nat) {
    n / WORD < |words| && Bit(words[n / WORD], n % WORD)
  }

  /** register_bit on the words. */
  function Register(words: seq<nat>, n: nat): seq<nat>
    requires n / WORD < |words|
  {
    words[n / WORD := Or(words[n / WORD], Pow2(n % WORD))]
  }

  /** unregister_bit: the mask as written is 0, shifted, and clears the whole word. Repaired, it clears bit n. */
  function Unregister(words: seq<nat>, n: nat, clearOneBit: bool): seq<nat>
    requires n / WORD < |words|
  {
    words[n / WORD := if clearOneBit then AndNot(words[n / WORD], Pow2(n % WORD)) else 0]
  }

  lemma RegisterSets(words: seq<nat>, n: nat, m: nat)
    requires n / WORD < |words|
    ensures IsSet(Register(words, n), m) <==> IsSet(words, m) || m == n
  {
    if m / WORD == n / WORD {
      BitOr(words[n / WORD], Pow2(n % WORD), m % WORD);
      BitPow2(n % WORD, m % WORD);
    }
  }

  lemma UnregisterClears(words: seq<nat>, n: nat, clearOneBit: bool, m: nat)
    requires n / WORD < |words|
    ensures IsSet(Unregister(words, n, clearOneBit), m) <==>
            IsSet(words, m) && if clearOneBit then m != n else m / WORD != n / WORD
  {
    if m / WORD == n / WORD {
      BitAndNot(words[n / WORD], Pow2(n % WORD), m % WORD);
      BitPow2(n % WORD, m % WORD);
      BitZero(m % WORD);
    }
  }

  /** The numbers of the set bits. */
  ghost function Names(words: seq<nat>): set<nat> {
    set n | 0 <= n < WORD * |words| && IsSet(words, n)
  }

  lemma NamesAre(words: seq<nat>, n: nat)
    ensures n in Names(words) <==> IsSet(words, n)
  {
  }

  lemma ZeroWord(i: nat)
    ensures !Bit(0, i)
  {
    BitZero(i);
  }

  lemma AllNames(words: seq<nat>)
    ensures forall n: nat :: n in Names(words) <==> IsSet(words, n)
  {
  }

  /** The set of names after the bits of the registry have changed. */
  lemma Renamed(now: seq<nat>, names: set<nat>)
    requires forall n: nat :: IsSet(now, n) <==> n in names
    ensures Names(now) == names
  {
    forall n: nat
      ensures n in Names(now) <==> n in names
    {
      NamesAre(now, n);
    }
  }

  lemma NoNames(words: seq<nat>)
    requires forall i | 0 <= i < |words| :: words[i] == 0
    ensures Names(words) == {}
  {
    forall n: nat | n < WORD * |words|
      ensures !IsSet(words, n)
    {
      ZeroWord(n % WORD);
    }
  }

  method RegisterBit(bitmap: array<nat>, n: nat) returns (done: bool)
    requires n / WORD < bitmap.Length
    modifies bitmap
    ensures done == !IsSet(old(bitmap[..]), n)
    ensures forall m: nat :: IsSet(bitmap[..], m) <==> IsSet(old(bitmap[..]), m) || m == n
  {
    var idx := n / WORD;
    ghost var was := bitmap[..];
    if Shr(bitmap[idx], n % WORD) % 2 == 1 {
      done := false;
    } else {
      bitmap[idx] := Or(bitmap[idx], Pow2(n % WORD));
      done := true;
      assert bitmap[..] == Register(was, n);
      forall m: nat
        ensures IsSet(bitmap[..], m) <==> IsSet(was, m) || m == n
      {
        RegisterSets(was, n, m);
      }
    }
  }

  method UnregisterBit(bitmap: array<nat>, n: nat, clearOneBit: bool) returns (done: bool)
    requires n / WORD < bitmap.Length
    modifies bitmap
    ensures done == IsSet(old(bitmap[..]), n)
    ensures !done ==> bitmap[..] == old(bitmap[..])
    ensures done ==> forall m: nat :: IsSet(bitmap[..], m) <==>
                       IsSet(old(bitmap[..]), m) && if clearOneBit then m != n else m / WORD != n / WORD
  {
    var idx := n / WORD;
    ghost var was := bitmap[..];
    if Shr(bitmap[idx], n % WORD) % 2 == 1 {
      bitmap[idx] := if clearOneBit then AndNot(bitmap[idx], Pow2(n % WORD)) else 0;
      done := true;
      assert bitmap[..] == Unregister(was, n, clearOneBit);
      forall m: nat
        ensures IsSet(bitmap[..], m) <==> IsSet(was, m) && if clearOneBit then m != n else m / WORD != n / WORD
      {
        UnregisterClears(was, n, clearOneBit, m);
      }
    } else {
      done := false;
    }
  }
}
