/** NUL-terminated strings in byte arrays, and the routines that edit them in place. */
module CStrings {
  import opened Words

  predicate Terminated(s: seq<u8>) {
    0 in s
  }

  /** Index of the first NUL. */
  function Length(s: seq<u8>): (n: nat)
    requires Terminated(s)
    ensures n < |s| && s[n] == 0
    ensures forall k | 0 <= k < n :: s[k] != 0
  {
    if s[0] == 0 then 0 else 1 + Length(s[1..])
  }

  function Text(s: seq<u8>): seq<u8>
    requires Terminated(s)
  {
    s[..Length(s)]
  }

  /** A buffer holds a text without NULs, then a NUL, then anything. */
  ghost predicate Holds(s: seq<u8>, text: seq<u8>, rest: seq<u8>) {
    0 !in text && s == text + [0] + rest
  }

  lemma HoldsText(s: seq<u8>, text: seq<u8>, rest: seq<u8>)
    requires Holds(s, text, rest)
    ensures Terminated(s) && Text(s) == text && Length(s) == |text|
  {
    assert s[|text|] == 0;
    assert forall k | 0 <= k < |text| :: s[k] == text[k];
  }

  method StrLen(s: array<u8>) returns (i: nat)
    requires Terminated(s[..])
    ensures i == Length(s[..])
  {
    i := 0;
    while s[i] != 0
      invariant i <= Length(s[..])
      decreases s.Length - i
    {
      i := i + 1;
    }
  }

  function Reversed(s: seq<u8>): (r: seq<u8>) {
    seq(|s|, k requires 0 <= k < |s| => s[|s| - 1 - k])
  }

  /** The buffer once the i outermost bytes at each end of its first n have been exchanged. */
  function Exchanged(s: seq<u8>, n: nat, i: nat): (r: seq<u8>)
    requires n <= |s|
  {
    seq(|s|, k requires 0 <= k < |s| => if k < n && (k < i || n - 1 - k < i) then s[n - 1 - k] else s[k])
  }

  lemma ExchangedAll(s: seq<u8>, n: nat, i: nat)
    requires n <= |s| && n - 1 <= 2 * i
    ensures Exchanged(s, n, i) == Reversed(s[..n]) + s[n..]
  {
    forall k | 0 <= k < |s|
      ensures Exchanged(s, n, i)[k] == (Reversed(s[..n]) + s[n..])[k]
    {
      if k < n && n - 1 - k >= i && k >= i {
        assert k == n - 1 - k;
      }
    }
  }

  method Reverse(s: array<u8>)
    requires Terminated(s[..])
    modifies s
    ensures s[..] == Reversed(Text(old(s[..]))) + old(s[..])[Length(old(s[..]))..]
  {
    var n: int := StrLen(s);
    var i, j := 0, n - 1;
    while i < j
      invariant 0 <= i <= j + 1 && i + j == n - 1
      invariant s[..] == Exchanged(old(s[..]), n, i)
    {
      var c := s[i];
      s[i] := s[j];
      s[j] := c;
      i := i + 1;
      j := j - 1;
    }
    ExchangedAll(old(s[..]), n, i);
  }

  method Append(s: array<u8>, c: u8, ghost text: seq<u8>, ghost rest: seq<u8>)
    requires Holds(s[..], text, rest) && rest != [] && c != 0
    modifies s
    ensures Holds(s[..], text + [c], rest[1..])
  {
    HoldsText(s[..], text, rest);
    var len := StrLen(s);
    s[len] := c;
    s[len + 1] := 0;
    assert s[..] == (text + [c]) + [0] + rest[1..];
  }
}
