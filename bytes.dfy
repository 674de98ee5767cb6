/** reverseBytes: reverses a byte buffer in place. */
module Bytes {

  /** The bytes of `s` in the opposite order. */
  function Reversed(s: seq<bv8>): (r: seq<bv8>)
    ensures |r| == |s|
  {
    if s == [] then [] else [s[|s| - 1]] + Reversed(s[..|s| - 1])
  }

  /** Byte i of the reversal is byte |s| - 1 - i of the original. */
  lemma {:induction false} ReversedAt(s: seq<bv8>, i: nat)
    requires i < |s|
    ensures Reversed(s)[i] == s[|s| - 1 - i]
    decreases |s|
  {
    if i > 0 {
      ReversedAt(s[..|s| - 1], i - 1);
    }
  }

  /** Reversing twice gives the buffer back. */
  lemma {:induction false} ReversedInvolution(s: seq<bv8>)
    ensures Reversed(Reversed(s)) == s
  {
    var r := Reversed(s);
    forall i | 0 <= i < |s|
      ensures Reversed(r)[i] == s[i]
    {
      ReversedAt(r, i);
      ReversedAt(s, |s| - 1 - i);
    }
  }

  /** reverseBytes(inp, len): swaps byte i with byte len - i - 1 for every
      i below len / 2, so the buffer ends reversed. */
  method ReverseBytes(a: array<bv8>)
    modifies a
    ensures a[..] == Reversed(old(a[..]))
  {
    ghost var s := a[..];
    var n := a.Length;
    var i := 0;
    while i < n / 2
      invariant 0 <= i <= n / 2
      invariant forall j :: 0 <= j < i ==> a[j] == s[n - 1 - j] && a[n - 1 - j] == s[j]
      invariant forall j :: i <= j < n - i ==> a[j] == s[j]
    {
      var tmp := a[i];
      a[i] := a[n - i - 1];
      a[n - i - 1] := tmp;
      i := i + 1;
    }
    forall j | 0 <= j < n
      ensures a[j] == Reversed(s)[j]
    {
      ReversedAt(s, j);
    }
  }
}
