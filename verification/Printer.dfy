/** libsol/printer.c: the digit loops, the in-place reversal and trimming, and the
    digit-by-digit comparison of two amount texts. */
module Printer {
  import opened Bytes
  import opened Decimal
  import opened Amounts

  const SOL_DECIMALS := 9

  /** A C string has no NUL before its terminator. */
  predicate IsCString(s: string) { forall i :: 0 <= i < |s| ==> s[i] != '\0' }

  // ---------- the emitted digits ----------

  /** The last k digits of n with the dot in place: what k iterations of the digit
      loop have written, read from right to left. */
  function Tail(n: nat, decimals: nat, k: nat): (t: string)
    ensures |t| == if k > decimals then k + 1 else k
  {
    Dotted(Digits(n, k), decimals)
  }

  /** n after k divisions by ten. */
  function DropDigits(n: nat, k: nat): nat {
    if k == 0 then n else DropDigits(n, k - 1) / 10
  }

  lemma {:induction false} DropFront(n: nat, k: nat)
    requires k > 0
    ensures DropDigits(n, k) == DropDigits(n / 10, k - 1)
  {
    if k > 1 {
      DropFront(n, k - 1);
    }
  }

  /** The loop emits the digits of n from the right. */
  lemma {:induction false} NextDigitIs(n: nat, k: nat)
    ensures Digits(n, k + 1) == [NextDigit(n, k)] + Digits(n, k)
  {
    if k == 0 {
      assert Digits(n / 10, 0) == "";
    } else {
      NextDigitIs(n / 10, k - 1);
      DropFront(n, k);
      assert Digits(n, k + 1) == Digits(n / 10, k) + [DigitChar(n % 10)];
      Assoc([NextDigit(n, k)], Digits(n / 10, k - 1), [DigitChar(n % 10)]);
    }
  }

  /** n is used up exactly after NumDigits(n) divisions. */
  lemma {:induction false} UsedUp(n: nat, k: nat)
    ensures DropDigits(n, k + 1) > 0 <==> NumDigits(n) > k + 1
  {
    if k == 0 {
      assert DropDigits(n, 1) == n / 10 by { assert DropDigits(n, 0) == n; }
    } else {
      UsedUp(n / 10, k - 1);
      DropFront(n, k + 1);
      if n < 10 {
        DropZero(k);
      }
    }
  }

  lemma DigitStep(n: nat, k: nat)
    ensures Digits(n, k + 1) == [NextDigit(n, k)] + Digits(n, k)
    ensures DropDigits(n, k + 1) > 0 <==> NumDigits(n) > k + 1
  {
    NextDigitIs(n, k);
    UsedUp(n, k);
  }

  lemma {:induction false} DropZero(k: nat)
    ensures DropDigits(0, k) == 0
  {
    if k > 0 {
      DropZero(k - 1);
    }
  }

  /** The digit the k-th iteration writes, counting from 0. */
  function NextDigit(n: nat, k: nat): char { DigitChar(DropDigits(n, k) % 10) }

  /** A dot put into the string at the cut, if there is one. */
  function Dotted(d: string, decimals: nat): string {
    if |d| <= decimals then d else d[..|d| - decimals] + "." + d[|d| - decimals..]
  }

  lemma CutCons(c: char, d: string, m: nat)
    requires m <= |d|
    ensures ([c] + d)[..m + 1] == [c] + d[..m] && ([c] + d)[m + 1..] == d[m..]
  {
  }

  lemma DotHere(d: string, decimals: nat, c: char)
    requires |d| == decimals
    ensures Dotted([c] + d, decimals) == [c] + ("." + d)
  {
    CutCons(c, d, 0);
    assert [c] + d[..0] == [c] && d[0..] == d;
    Assoc([c], ".", d);
  }

  lemma DotAbove(d: string, decimals: nat, c: char, m: nat)
    requires m == |d| - decimals > 0
    ensures Dotted([c] + d, decimals) == [c] + Dotted(d, decimals)
  {
    CutCons(c, d, m);
    Assoc([c], d[..m], ".");
    Assoc([c], d[..m] + ".", d[m..]);
  }

  lemma DottedStep(d: string, decimals: nat, c: char)
    ensures |d| == decimals ==> Dotted([c] + d, decimals) == [c] + ("." + Dotted(d, decimals))
    ensures |d| != decimals ==> Dotted([c] + d, decimals) == [c] + Dotted(d, decimals)
  {
    if |d| == decimals {
      DotHere(d, decimals, c);
    } else if |d| > decimals {
      DotAbove(d, decimals, c, |d| - decimals);
    }
  }

  /** One iteration of the digit loop. */
  lemma TailStep(n: nat, decimals: nat, k: nat)
    requires k > 0
    ensures k - 1 == decimals ==> Tail(n, decimals, k) == [NextDigit(n, k - 1)] + ("." + Tail(n, decimals, k - 1))
    ensures k - 1 != decimals ==> Tail(n, decimals, k) == [NextDigit(n, k - 1)] + Tail(n, decimals, k - 1)
  {
    NextDigitIs(n, k - 1);
    DottedStep(Digits(n, k - 1), decimals, NextDigit(n, k - 1));
  }

  /** What k iterations of the digit loop write, in writing order. */
  function Emitted(n: nat, decimals: nat, k: nat): (t: string)
    ensures |t| == if k > decimals then k + 1 else k
  {
    if k == 0 then ""
    else
      var e := Emitted(n, decimals, k - 1);
      (if k - 1 == decimals then e + "." else e) + [NextDigit(n, k - 1)]
  }

  /** The loop writes the text backwards. */
  lemma {:induction false} EmittedIsReversed(n: nat, decimals: nat, k: nat)
    ensures Reversed(Emitted(n, decimals, k)) == Tail(n, decimals, k)
  {
    if k > 0 {
      EmittedIsReversed(n, decimals, k - 1);
      TailStep(n, decimals, k);
      var e := Emitted(n, decimals, k - 1);
      ReversedSnoc(e, '.');
      ReversedSnoc(if k - 1 == decimals then e + "." else e, NextDigit(n, k - 1));
    }
  }

  function EmittedNat(n: nat, k: nat): (t: string)
    ensures |t| == k
  {
    if k == 0 then "" else EmittedNat(n, k - 1) + [NextDigit(n, k - 1)]
  }

  lemma {:induction false} EmittedNatIsReversed(n: nat, k: nat)
    ensures Reversed(EmittedNat(n, k)) == Digits(n, k)
  {
    if k > 0 {
      EmittedNatIsReversed(n, k - 1);
      NextDigitIs(n, k - 1);
      ReversedSnoc(EmittedNat(n, k - 1), NextDigit(n, k - 1));
    }
  }

  // ---------- loops over the buffer ----------

  /** The swap loop: out[at..end] is reversed in place. */
  method ReverseInPlace(out: array<char>, at: nat, end: nat)
    requires at <= end <= out.Length
    modifies out
    ensures out[at..end] == Reversed(old(out[at..end]))
    ensures out[..at] == old(out[..at]) && out[end..] == old(out[end..])
  {
    ghost var was := out[..];
    var j, k := at, end - 1;
    while j < k
      invariant at <= j <= end && k == end - 1 - (j - at)
      invariant forall x :: at <= x < end && (x < j || k < x) ==> out[x] == was[end - 1 - (x - at)]
      invariant forall x :: 0 <= x < out.Length && (j <= x <= k || x < at || end <= x) ==> out[x] == was[x]
    {
      out[j], out[k] := out[k], out[j];
      j, k := j + 1, k - 1;
    }
    ReversedSlice(was, out[..], at, end);
  }

  lemma ReversedSlice(was: string, now: string, at: nat, end: nat)
    requires at <= end <= |was| == |now|
    requires forall x :: at <= x < end ==> now[x] == was[end - 1 - (x - at)]
    ensures now[at..end] == Reversed(was[at..end])
  {
    forall x | 0 <= x < end - at ensures now[at..end][x] == Reversed(was[at..end])[x] {
      ReversedAt(was[at..end], x);
    }
  }

  /** Writes one digit, preceded by the dot when its turn has come. */
  method PutDigit(out: array<char>, i0: nat, outlen: nat, decimals: byte, digit: int) returns (ok: bool, i: nat)
    requires i0 < outlen <= out.Length && 0 <= digit < 10
    modifies out
    ensures ok <==> !(i0 == decimals && i0 + 1 >= outlen)
    ensures ok ==> i <= outlen
                   && out[..i] == (if i0 == decimals then old(out[..i0]) + "." else old(out[..i0])) + [DigitChar(digit)]
    ensures out[outlen..] == old(out[outlen..])
  {
    i := i0;
    if i == decimals {
      out[i] := '.';
      i := i + 1;
      if i >= outlen {
        return false, i;
      }
    }
    out[i] := DigitChar(digit);
    i := i + 1;
    ok := true;
  }

  /** When the loop may stop: the number and the minimum width are both used up. */
  lemma LoopEnd(n: nat, decimals: nat, k: nat, i: nat)
    requires i == if k + 1 > decimals then k + 2 else k + 1
    ensures k < Width(n, decimals) ==>
              (DropDigits(n, k + 1) > 0 || i < decimals + 1 <==> k + 1 < Width(n, decimals))
  {
    DigitStep(n, k);
  }

  /** The do-while loop of print_token_amount: all digits and the dot, backwards. */
  method EmitDigits(amount: u64, decimals: byte, out: array<char>, outlen: nat, ghost w: nat)
    returns (ok: bool, i: nat)
    requires outlen <= out.Length && w == Width(amount, decimals)
    modifies out
    ensures ok <==> outlen == 1 || w + 1 < outlen
    ensures outlen == 1 ==> i == 0
    ensures ok && outlen != 1 ==> i == w + 1 && out[..i] == Emitted(amount, decimals, w)
    ensures out[outlen..] == old(out[outlen..])
  {
    var dVal := amount;
    var minChars := decimals + 1;
    i := 0;
    if i < outlen - 1 {
      ghost var k := 0;
      var more := true;
      while more
        invariant 0 <= k <= w && dVal == DropDigits(amount, k)
        invariant i == |Emitted(amount, decimals, k)| && i <= outlen && out[..i] == Emitted(amount, decimals, k)
        invariant more ==> i < outlen && k < w
        invariant !more ==> i == outlen || k == w
        invariant out[outlen..] == old(out[outlen..])
        decreases w - k, more
      {
        ok, i := PutDigit(out, i, outlen, decimals, dVal % 10);
        if !ok {
          return;
        }
        dVal := dVal / 10;
        LoopEnd(amount, decimals, k, i);
        k := k + 1;
        more := (dVal > 0 || i < minChars) && i < outlen;
      }
    }
    ok := i < outlen;
  }

  lemma TrimZerosStep(t: string)
    requires |t| > 1 && t[|t| - 1] == '0'
    ensures TrimZeros(t) == TrimZeros(t[..|t| - 1])
  {
  }

  /** The two trimming steps: trailing zeros, then a trailing dot. */
  method TrimInPlace(out: array<char>, n: nat) returns (i: nat)
    requires 0 < n <= out.Length
    ensures i <= n && out[..i] == TrimDot(TrimZeros(out[..n]))
  {
    i := n - 1;
    while i > 0 && out[i] == '0'
      invariant 0 <= i < n && TrimZeros(out[..n]) == TrimZeros(out[..i + 1])
    {
      TrimZerosStep(out[..i + 1]);
      assert out[..i + 1][..i] == out[..i];
      i := i - 1;
    }
    i := i + 1;
    assert TrimZeros(out[..i]) == out[..i];
    if out[i - 1] == '.' {
      i := i - 1;
      assert out[..i + 1][..i] == out[..i];
    }
  }

  /** The amount, followed by a space and the asset when there is one. */
  function Qualified(amount: nat, decimals: nat, asset: Option<string>): string {
    AmountText(amount, decimals) + match asset case None => "" case Some(a) => " " + a
  }

  /** What the buffer must hold: the untrimmed digits with one place to spare, and the
      final text with its terminator. */
  predicate Fits(amount: nat, decimals: nat, asset: Option<string>, outLength: nat) {
    && outLength <= INT_MAX && Width(amount, decimals) + 1 < outLength
    && (asset.Some? ==> |Qualified(amount, decimals, asset)| + 1 <= outLength)
  }

  /** When an amount fits, in numbers: the buffer holds the decimals, a digit and the dot with
      a place to spare, and the amount has fewer digits than the buffer places but one. */
  lemma FitsIff(amount: nat, decimals: nat, outLength: nat)
    ensures Fits(amount, decimals, None, outLength) <==>
              decimals + 2 < outLength <= 0x7FFF_FFFF && amount < Pow10(outLength - 2)
  {
    if outLength > 2 {
      NumDigitsIs(amount, outLength - 2);
    }
  }

  /** With a ticker there must be room for the final text as well. */
  lemma FitsWithTickerIff(amount: nat, decimals: nat, ticker: string, outLength: nat)
    ensures Fits(amount, decimals, Some(ticker), outLength) <==>
              Fits(amount, decimals, None, outLength) && |AmountText(amount, decimals)| + |ticker| + 2 <= outLength
  {
  }

  /** strncpy of length |t| + 1: the text and its terminator. */
  method CopyString(t: string, out: array<char>, at: nat)
    requires at + |t| + 1 <= out.Length
    modifies out
    ensures out[..at + |t| + 1] == old(out[..at]) + t + ['\0']
    ensures out[at + |t| + 1..] == old(out[at + |t| + 1..])
  {
    forall x | 0 <= x < |t| { out[at + x] := t[x]; }
    out[at + |t|] := '\0';
  }

  /** print_token_amount. A length of 1 makes the program read out[-1]: underread says so,
      and the model stops there. The sum of the lengths is computed in int. */
  method PrintTokenAmount(amount: u64, asset: Option<string>, decimals: byte, out: array<char>, outLength: nat)
    returns (rc: int, underread: bool)
    requires outLength <= out.Length
    requires asset.Some? ==> IsCString(asset.value) && |asset.value| + 259 <= INT_MAX
    modifies out
    ensures underread <==> outLength == 1
    ensures rc == 0 <==> Fits(amount, decimals, asset, outLength)
    ensures rc == 0 ==> var q := Qualified(amount, decimals, asset);
                        |q| + 1 <= outLength && out[..|q| + 1] == q + ['\0']
    ensures out[outLength..] == old(out[outLength..])
    ensures rc == 0 || rc == 1
  {
    if outLength > INT_MAX {
      return 1, false;
    }
    var ok, i := PrintUntrimmed(amount, decimals, out, outLength);
    if !ok {
      return 1, false;
    }
    if i == 0 {
      return 1, true;
    }
    i := TrimInPlace(out, i);
    rc := Qualify(out, i, outLength, asset);
    underread := false;
  }

  /** The digit loop and the reversal: the untrimmed text. */
  method PrintUntrimmed(amount: u64, decimals: byte, out: array<char>, outLength: nat) returns (ok: bool, i: nat)
    requires outLength <= out.Length
    modifies out
    ensures ok <==> outLength == 1 || Width(amount, decimals) + 1 < outLength
    ensures outLength == 1 ==> i == 0
    ensures ok && outLength != 1 ==> i == Width(amount, decimals) + 1 && out[..i] == RawText(amount, decimals)
    ensures out[outLength..] == old(out[outLength..])
  {
    ghost var w, raw := EmittedIsRaw(amount, decimals);
    ok, i := EmitDigits(amount, decimals, out, outLength, w);
    if ok {
      assert out[0..i] == out[..i];
      ReverseInPlace(out, 0, i);
      assert out[..i] == out[0..i];
      assert outLength != 1 ==> out[..i] == raw;
    }
  }

  lemma EmittedIsRaw(amount: nat, decimals: nat) returns (w: nat, raw: string)
    ensures w == Width(amount, decimals) && raw == RawText(amount, decimals)
    ensures Reversed(Emitted(amount, decimals, w)) == raw
  {
    w, raw := Width(amount, decimals), RawText(amount, decimals);
    EmittedIsReversed(amount, decimals, w);
  }

  /** The last step of print_token_amount: the asset, if any, and the terminator. */
  method Qualify(out: array<char>, i: nat, outlen: nat, asset: Option<string>) returns (rc: int)
    requires i < outlen <= out.Length
    modifies out
    ensures rc == if asset.Some? && i + 1 + |asset.value| + 1 > outlen then 1 else 0
    ensures rc == 0 ==> var q := old(out[..i]) + match asset { case None => "" case Some(a) => " " + a };
                        |q| + 1 <= outlen && out[..|q| + 1] == q + ['\0']
    ensures out[outlen..] == old(out[outlen..])
  {
    match asset
    case None =>
      out[i] := '\0';
      rc := 0;
    case Some(a) =>
      if i + 1 + |a| + 1 > outlen {
        return 1;
      }
      out[i] := ' ';
      CopyString(a, out, i + 1);
      rc := 0;
  }

  /** print_amount */
  method PrintAmount(amount: u64, out: array<char>, outLength: nat) returns (rc: int, underread: bool)
    requires outLength <= out.Length
    modifies out
    ensures underread <==> outLength == 1
    ensures rc == 0 <==> Fits(amount, 9, Some("SOL"), outLength)
    ensures rc == 0 ==> var q := Qualified(amount, 9, Some("SOL"));
                        |q| + 1 <= outLength && out[..|q| + 1] == q + ['\0']
  {
    rc, underread := PrintTokenAmount(amount, Some("SOL"), SOL_DECIMALS, out, outLength);
  }

  // ---------- print_u64 and print_i64 ----------

  function NatText(n: nat): string { Digits(n, NumDigits(n)) }

  /** The number read back from its text, which has no redundant leading zero. */
  lemma NatTextValue(n: nat)
    ensures NatOf(NatText(n)) == n
    ensures |NatText(n)| > 1 ==> NatText(n)[0] != '0'
  {
    var w := NumDigits(n);
    NumDigitsIs(n, w);
    NatOfDigits(n, w);
    if w > 1 {
      NumDigitsIs(n, w - 1);
      TopDigit(n, w);
    }
  }

  /** What print_u64 leaves in a buffer: with room for the terminator only, nothing. */
  function NatShown(n: nat, outLength: int): string { if outLength > 1 then NatText(n) else "" }

  /** print_u64 on the buffer that starts at out + at. */
  method PrintU64(u: u64, out: array<char>, at: nat, outLength: nat) returns (rc: int)
    requires at + outLength <= out.Length
    modifies out
    ensures rc == 0 <==> |NatShown(u, outLength)| < outLength <= INT_MAX
    ensures rc == 0 ==> var t := NatShown(u, outLength);
                        out[..at + |t| + 1] == old(out[..at]) + t + ['\0']
  {
    if outLength > INT_MAX {
      return 1;
    }
    var i := EmitNat(u, out, at, outLength);
    if i >= outLength {
      return 1;
    }
    out[at + i] := '\0';
    ReverseInPlace(out, at, at + i);
    EmittedNatIsReversed(u, i);
    ThreeParts(out[..], at, at + i);
    rc := 0;
  }

  lemma ThreeParts(s: seq<char>, a: nat, b: nat)
    requires a <= b < |s|
    ensures s[..b + 1] == s[..a] + s[a..b] + [s[b]]
  {
  }

  lemma SliceAppend(was: seq<char>, now: seq<char>, at: nat, k: nat)
    requires at <= k < |was| == |now| && now == was[k := now[k]]
    ensures now[at..k + 1] == was[at..k] + [now[k]] && now[..at] == was[..at]
  {
  }

  lemma EmittedNatSnoc(n: nat, k: nat)
    ensures EmittedNat(n, k + 1) == EmittedNat(n, k) + [NextDigit(n, k)]
    ensures DropDigits(n, k) == 0 ==> NextDigit(n, k) == '0'
    ensures DropDigits(n, k + 1) == DropDigits(n, k) / 10
  {
  }

  /** The do-while loop of print_u64. */
  method EmitNat(u: u64, out: array<char>, at: nat, outLength: nat) returns (i: nat)
    requires at + outLength <= out.Length
    modifies out
    ensures i == if outLength <= 1 then 0 else if NumDigits(u) < outLength then NumDigits(u) else outLength
    ensures out[at..at + i] == EmittedNat(u, i) && out[..at] == old(out[..at])
  {
    var dVal := u;
    i := 0;
    if i < outLength - 1 {
      var more := true;
      while more
        invariant 0 <= i <= NumDigits(u) && i <= outLength && dVal == DropDigits(u, i)
        invariant out[at..at + i] == EmittedNat(u, i) && out[..at] == old(out[..at])
        invariant more ==> i < outLength && i < NumDigits(u)
        invariant !more ==> i == outLength || i == NumDigits(u)
        decreases NumDigits(u) - i, more
      {
        DigitStep(u, i);
        ghost var before := out[..];
        if dVal > 0 {
          out[at + i] := DigitChar(dVal % 10);
          dVal := dVal / 10;
        } else {
          out[at + i] := '0';
        }
        SliceAppend(before, out[..], at, at + i);
        EmittedNatSnoc(u, i);
        i := i + 1;
        more := dVal > 0 && i < outLength;
      }
    }
  }

  function IntText(x: int): string { if x < 0 then "-" + NatText(-x) else NatText(x) }

  /** What print_i64 leaves in a buffer: the number, or with room for sign and terminator
      only, the sign alone. */
  function IntShown(x: int, outLength: nat): string {
    if x < 0 then "-" + NatShown(-x, outLength - 1) else NatShown(x, outLength)
  }

  /** With more room the number is shown in full. */
  lemma IntShownInFull(x: int, outLength: nat)
    ensures outLength > (if x < 0 then 2 else 1) ==> IntShown(x, outLength) == IntText(x)
  {
  }

  /** print_i64: the magnitude of a negative number is its two's complement, which is
      right for the most negative one too. */
  method PrintI64(x: int, out: array<char>, outLength: nat) returns (rc: int)
    requires -0x8000_0000_0000_0000 <= x < 0x8000_0000_0000_0000
    requires outLength <= out.Length
    modifies out
    ensures rc == 0 <==> |IntShown(x, outLength)| < outLength <= INT_MAX + (if x < 0 then 1 else 0)
    ensures rc == 0 ==> out[..|IntShown(x, outLength)| + 1] == IntShown(x, outLength) + ['\0']
  {
    if outLength < 1 {
      return 1;
    }
    var u := Wrap64(x);
    Magnitude(x);
    var sign := "";
    if x < 0 {
      sign := "-";
      u := Wrap64(UINT64_MAX - u + 1);
    }
    SignedShown(x, u, sign, outLength);
    rc := PrintSigned(u, sign, out, outLength);
  }

  lemma SignedShown(x: int, u: nat, sign: string, outLength: nat)
    requires u == (if x < 0 then -x else x) && sign == if x < 0 then "-" else ""
    ensures sign + NatShown(u, outLength - |sign|) == IntShown(x, outLength)
  {
    if x < 0 {
      assert u == -x && outLength - |sign| == outLength - 1;
    } else {
      assert "" + NatShown(u, outLength) == NatShown(u, outLength);
    }
  }

  /** The sign, if any, and the magnitude after it. */
  method PrintSigned(u: u64, sign: string, out: array<char>, outLength: nat) returns (rc: int)
    requires |sign| <= 1 <= outLength <= out.Length
    modifies out
    ensures var t := sign + NatShown(u, outLength - |sign|);
            && (rc == 0 <==> |t| < outLength <= INT_MAX + |sign|)
            && (rc == 0 ==> out[..|t| + 1] == t + ['\0'])
  {
    var at := |sign|;
    forall i | 0 <= i < at { out[i] := sign[i]; }
    assert out[..at] == sign;
    rc := PrintU64(u, out, at, outLength - at);
  }

  lemma Magnitude(x: int)
    requires -0x8000_0000_0000_0000 <= x < 0x8000_0000_0000_0000
    ensures x >= 0 ==> Wrap64(x) == x
    ensures x < 0 ==> Wrap64(UINT64_MAX - Wrap64(x) + 1) == -x
  {
  }
}
