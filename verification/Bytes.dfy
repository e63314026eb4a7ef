/** Fixed-width unsigned integers, byte strings and the few C library
    conventions the firmware relies on. */
module Bytes {
  type byte = x: int | 0 <= x < 0x100
  type u16 = x: int | 0 <= x < 0x1_0000
  type u32 = x: int | 0 <= x < 0x1_0000_0000
  type u64 = x: int | 0 <= x < 0x1_0000_0000_0000_0000

  const UINT64_MAX: u64 := 0xFFFF_FFFF_FFFF_FFFF
  const INT_MAX := 0x7FFF_FFFF

  /** The truncation of an integer expression to uint32_t. */
  function Wrap32(x: int): u32 { x % 0x1_0000_0000 }

  /** The truncation of an integer expression to uint64_t. */
  function Wrap64(x: int): u64 { x % 0x1_0000_0000_0000_0000 }

  datatype Option<+T> = None | Some(value: T) {
    predicate IsFailure() { None? }
    function PropagateFailure<U>(): Option<U> requires None? { None }
    function Extract(): T requires Some? { value }
  }

  lemma MulMono(x: int, y: int, p: nat)
    requires x <= y
    ensures x * p <= y * p
  {
  }

  lemma Assoc<T>(a: seq<T>, b: seq<T>, c: seq<T>)
    ensures (a + b) + c == a + (b + c)
  {
  }

  function Reversed<T>(s: seq<T>): (r: seq<T>)
    ensures |r| == |s|
  {
    seq(|s|, i requires 0 <= i < |s| => s[|s| - 1 - i])
  }

  lemma ReversedAt<T>(s: seq<T>, i: nat)
    requires i < |s|
    ensures Reversed(s)[i] == s[|s| - 1 - i]
  {
  }

  /** What is put behind e is in front of its reversal, and the other way round. */
  lemma ReversedSnoc<T>(e: seq<T>, c: T)
    ensures Reversed(e + [c]) == [c] + Reversed(e) && Reversed([c] + e) == Reversed(e) + [c]
  {
    var last, first := Reversed(e + [c]), Reversed([c] + e);
    forall i | 0 <= i < |last| ensures last[i] == ([c] + Reversed(e))[i] {
      ReversedAt(e + [c], i);
      if i > 0 { ReversedAt(e, i - 1); }
    }
    forall i | 0 <= i < |first| ensures first[i] == (Reversed(e) + [c])[i] {
      ReversedAt([c] + e, i);
      if i < |e| { ReversedAt(e, i); }
    }
  }

  function Zeros(n: nat): (s: seq<byte>)
    ensures |s| == n && forall i :: 0 <= i < n ==> s[i] == 0
  {
    seq(n, _ => 0)
  }
}
