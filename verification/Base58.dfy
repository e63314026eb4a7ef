/** encode_base58 of libsol/printer.c: in-place long division, against the base-58
    text of a byte string and a decoder that inverts it. */
module Base58 {
  import opened Bytes
  import opened Numerals

  /** The letter that follows c in the alphabet: the next ASCII digit or letter that
      is not 'I', 'O' or 'l'. */
  function NextLetter(c: char): char {
    if c == '9' then 'A' else if c == 'H' then 'J' else if c == 'N' then 'P'
    else if c == 'Z' then 'a' else if c == 'k' then 'm' else if c < 'z' then (c as int + 1) as char else c
  }

  /** The d-th letter of the alphabet. */
  function Letter(d: nat): (c: char)
    ensures c <= 'z'
  {
    if d == 0 then '1' else NextLetter(Letter(d - 1))
  }

  /** Letter agrees with the table of the program: 1-9, A-H, J-N, P-Z, a-k, m-z. */
  lemma {:induction false} AlphabetTable(d: nat)
    requires d < 58
    ensures Letter(d) as int == if d < 9 then 49 + d else if d < 17 then 65 + d - 9 else if d < 22 then 74 + d - 17
                                else if d < 33 then 80 + d - 22 else if d < 44 then 97 + d - 33 else 109 + d - 44
  {
    if d > 0 {
      AlphabetTable(d - 1);
    }
  }

  const INVALID_PARAMETER := 2
  const EXCEPTION_OVERFLOW := 3

  // ---------- base-58 text ----------

  function LeadingZeros(s: seq<int>): (z: nat)
    ensures z <= |s| && (forall i :: 0 <= i < z ==> s[i] == 0) && (z < |s| ==> s[z] != 0)
  {
    if |s| == 0 || s[0] != 0 then 0 else 1 + LeadingZeros(s[1..])
  }

  function Letters(d: seq<int>): (t: string)
    requires InBase(d, B58)
    ensures |t| == |d|
  {
    seq(|d|, i requires 0 <= i < |d| => Letter(d[i]))
  }

  function Ones(n: nat): (t: string)
    ensures |t| == n && forall i :: 0 <= i < n ==> t[i] == '1'
  {
    seq(n, _ => '1')
  }

  /** One '1' per leading zero byte, then the shortest base-58 numeral of the value. */
  function Encode(s: seq<byte>): string {
    BytesInBase(s);
    ValueBound(s, B256);
    Ones(LeadingZeros(s)) + Letters(Numeral(Value(s, B256), B58))
  }

  // ---------- the decoder ----------

  function LetterIndex(c: char, k: nat): (i: int)
    requires k <= 58
    ensures -1 <= i < 58 && (i >= 0 ==> Letter(i) == c)
    ensures i == -1 ==> forall j :: 0 <= j < k ==> Letter(j) != c
  {
    if k == 0 then -1 else if Letter(k - 1) == c then k - 1 else LetterIndex(c, k - 1)
  }

  predicate IsBase58(t: string) { forall i :: 0 <= i < |t| ==> LetterIndex(t[i], 58) >= 0 }

  function DigitsOf(t: string): (d: seq<int>)
    requires IsBase58(t)
    ensures |d| == |t| && InBase(d, B58)
  {
    seq(|t|, i requires 0 <= i < |t| => LetterIndex(t[i], 58))
  }

  /** Leading '1's stand for zero bytes, the rest for the bytes of a number. */
  function Decode(t: string): Option<seq<int>> {
    if !IsBase58(t) then None
    else
      var d := DigitsOf(t);
      var z := LeadingZeros(d);
      var n := Value(d[z..], B58);
      if n < 0 then None else Some(Zeros(z) + Numeral(n, B256))
  }

  lemma AlphabetDistinct(i: int, j: int)
    requires 0 <= i < 58 && 0 <= j < 58
    ensures Letter(i) == Letter(j) ==> i == j
  {
    AlphabetTable(i);
    AlphabetTable(j);
  }

  /** The decoder finds each letter at its own index. */
  lemma IndexOfLetter(d: nat)
    requires d < 58
    ensures LetterIndex(Letter(d), 58) == d
  {
    AlphabetDistinct(LetterIndex(Letter(d), 58), d);
  }

  lemma DigitsOfLetters(d: seq<int>)
    requires InBase(d, B58)
    ensures IsBase58(Letters(d)) && DigitsOf(Letters(d)) == d
  {
    var t := Letters(d);
    forall i | 0 <= i < |t|
      ensures LetterIndex(t[i], 58) == d[i]
    {
      IndexOfLetter(d[i]);
    }
  }

  lemma LettersConcat(c: seq<int>, d: seq<int>)
    requires InBase(c, B58) && InBase(d, B58)
    ensures InBase(c + d, B58) && Letters(c + d) == Letters(c) + Letters(d)
  {
  }

  lemma {:induction false} LeadingZerosOfPad(z: nat, d: seq<int>)
    requires |d| > 0 ==> d[0] != 0
    ensures LeadingZeros(Zeros(z) + d) == z
  {
    if z == 0 {
      assert Zeros(0) + d == d;
    } else {
      assert (Zeros(z) + d)[1..] == Zeros(z - 1) + d;
      LeadingZerosOfPad(z - 1, d);
    }
  }

  lemma BytesSplit(s: seq<byte>)
    ensures var z := LeadingZeros(s); var v := Value(s, B256);
            v >= 0 && s == Zeros(z) + Numeral(v, B256)
  {
    var z := LeadingZeros(s);
    var r := s[z..];
    CutZeros(s, z);
    ValueDropZeros(z, r, B256);
    BytesInBase(r);
    NumeralUnique(r, B256);
  }

  lemma CutZeros(s: seq<byte>, z: nat)
    requires z <= |s| && forall i :: 0 <= i < z ==> s[i] == 0
    ensures s == Zeros(z) + s[z..]
  {
  }

  /** The decoder inverts the encoding, so no two byte strings share a text. */
  lemma DecodeEncode(s: seq<byte>)
    ensures Decode(Encode(s)) == Some(s)
  {
    var z, n := LeadingZeros(s), Value(s, B256);
    BytesSplit(s);
    var d := Numeral(n, B58);
    LettersConcat(Zeros(z), d);
    assert Letters(Zeros(z)) == Ones(z);
    DigitsOfLetters(Zeros(z) + d);
    if n == 0 { assert d == []; }
    LeadingZerosOfPad(z, d);
    assert (Zeros(z) + d)[z..] == d;
    NumeralValue(n, B58);
  }

  // ---------- length ----------

  lemma SquareGrows(a: nat, b: nat)
    requires a <= b
    ensures a * a <= b * b
  {
  }

  lemma EightInEleven()
    ensures Pow(B256, 8) <= Pow(B58, 11)
  {
    EightBytes();
    assert Pow(B58, 4) == 11316496 by { assert Pow(B58, 2) == 3364; }
    assert Pow(B58, 3) == 195112;
    PowAdd(B58, 4, 4);
    PowAdd(B58, 8, 3);
  }

  lemma ThirtyTwoBytes()
    ensures Pow(B256, 32) <= Pow(B58, 44)
  {
    EightInEleven();
    PowAdd(B256, 8, 8);
    PowAdd(B58, 11, 11);
    SquareGrows(Pow(B256, 8), Pow(B58, 11));
    PowAdd(B256, 16, 16);
    PowAdd(B58, 22, 22);
    SquareGrows(Pow(B256, 16), Pow(B58, 22));
  }

  lemma AllBytes(i: nat, j: nat)
    requires i == 32 && j == 44
    ensures Pow(B256, i) <= Pow(B58, j)
  {
    ThirtyTwoBytes();
  }

  lemma DropBoth(i: nat, j: nat)
    requires Pow(B256, i + 1) <= Pow(B58, j + 1)
    ensures Pow(B256, i) <= Pow(B58, j)
  {
  }

  /** 256^i <= 58^(i + 12) up to 32 bytes: a missing byte costs more than a missing letter. */
  lemma {:induction false} FewerBytes(i: nat, j: nat)
    requires i <= 32 && j == i + 12
    ensures Pow(B256, i) <= Pow(B58, j)
    decreases 32 - i
  {
    if i == 32 {
      AllBytes(i, j);
    } else {
      FewerBytes(i + 1, j + 1);
      DropBoth(i, j);
    }
  }

  /** Any input of at most 32 bytes fits in 44 letters. */
  lemma EncodeLength(s: seq<byte>)
    requires |s| <= 32
    ensures |Encode(s)| <= 44
  {
    var z, n := LeadingZeros(s), Value(s, B256);
    PayloadBound(s);
    FewerBytes(|s| - z, |s| - z + 12);
    NumeralLength(n, B58, |s| - z + 12);
  }

  lemma PayloadBound(s: seq<byte>)
    ensures 0 <= Value(s, B256) < Pow(B256, |s| - LeadingZeros(s))
  {
    var z := LeadingZeros(s);
    SameValue(s, s[z..], z);
    ValueBound(s[z..], B256);
  }

  // ---------- the algorithm ----------

  /** One digit of a long division by 58: x is what was divided, y the quotient so far. */
  lemma DivideStep(x: seq<byte>, y: seq<byte>, r: int, d: byte, q: byte, r': int)
    requires Value(x, B256) == 58 * Value(y, B256) + r && 256 * r + d == 58 * q + r'
    ensures Value(x + [d], B256) == 58 * Value(y + [q], B256) + r'
  {
    ValueSnoc(x, d, B256);
    ValueSnoc(y, q, B256);
  }

  lemma SliceSnoc(s: seq<byte>, a: nat, k: nat)
    requires a <= k < |s|
    ensures s[a..k + 1] == s[a..k] + [s[k]]
  {
  }

  /** One digit of the pass: the remainder carried in is below 58, so is the one out. */
  lemma DivideDigit(r: nat, d: byte)
    requires r < 58
    ensures (256 * r + d) / 58 < 256 && 256 * r + d == 58 * ((256 * r + d) / 58) + (256 * r + d) % 58
  {
  }

  /** The body of the loop: the byte at k is divided, with the remainder carried in. */
  method DivideAt(tmp: array<byte>, k: nat, carry: u16, ghost was: seq<byte>, ghost a: nat, ghost quotient: seq<byte>)
      returns (remainder: u16, ghost next: seq<byte>)
    requires a <= k < tmp.Length == |was| && |quotient| == k - a && carry < 58
    requires tmp[..] == was[..a] + quotient + was[k..]
    requires Value(was[a..k], B256) == 58 * Value(quotient, B256) + carry
    modifies tmp
    ensures remainder < 58 && |next| == k + 1 - a && next[..k - a] == quotient
    ensures tmp[..] == was[..a] + next + was[k + 1..]
    ensures Value(was[a..k] + [was[k]], B256) == 58 * Value(next, B256) + remainder
    ensures carry == 0 ==> next[k - a] == was[k] / 58
  {
    var digit256 := tmp[k];
    assert digit256 == was[k];
    DivideDigit(carry, digit256);
    var tmpDiv := carry * 256 + digit256;
    DivideStep(was[a..k], quotient, carry, digit256, tmpDiv / 58, tmpDiv % 58);
    tmp[k] := tmpDiv / 58;
    remainder := tmpDiv % 58;
    ReplaceAt(was, a, quotient, k, tmp[k], tmp[..]);
    next := quotient + [tmp[k]];
  }

  /** One long division of tmp[startAt..length] by 58, in place. */
  method DivideBy58(tmp: array<byte>, startAt: nat, length: nat) returns (remainder: u16)
    requires startAt <= length <= tmp.Length
    modifies tmp
    ensures remainder < 58
    ensures Value(old(tmp[startAt..length]), B256) == 58 * Value(tmp[startAt..length], B256) + remainder
    ensures startAt < length ==> tmp[startAt] == old(tmp[startAt]) / 58
    ensures tmp[..startAt] == old(tmp[..startAt]) && tmp[length..] == old(tmp[length..])
  {
    remainder := 0;
    ghost var was := tmp[..];
    ghost var quotient: seq<byte> := [];
    for k := startAt to length
      invariant remainder < 58 && |quotient| == k - startAt
      invariant tmp[..] == was[..startAt] + quotient + was[k..]
      invariant Value(was[startAt..k], B256) == 58 * Value(quotient, B256) + remainder
      invariant startAt < k ==> quotient[0] == was[startAt] / 58
      invariant k == startAt ==> remainder == 0
    {
      SliceSnoc(was, startAt, k);
      remainder, quotient := DivideAt(tmp, k, remainder, was, startAt, quotient);
    }
    assert tmp[startAt..length] == quotient;
  }

  /** Writing x at k turns the first byte after the quotient into its next one. */
  lemma ReplaceAt(was: seq<byte>, a: nat, quotient: seq<byte>, k: nat, x: byte, now: seq<byte>)
    requires a <= k < |was| && |quotient| == k - a && |now| == |was|
    requires now == (was[..a] + quotient + was[k..])[k := x]
    ensures now == was[..a] + (quotient + [x]) + was[k + 1..]
  {
  }

  /** One pass per letter: after p passes at most 2 * (startAt - zeros) + 1 letters are
      out, and the odd one only when the leading byte has already been divided. */
  ghost predicate PassesBound(passes: int, steps: int, lead: int) {
    passes <= 2 * steps || (passes == 2 * steps + 1 && 0 < lead < 58)
  }

  lemma LettersCons(c: int, d: seq<int>)
    requires 0 <= c < 58 && InBase(d, B58)
    ensures InBase([c] + d, B58) && Letters([c] + d) == [Letter(c)] + Letters(d)
  {
  }

  /** The digits so far stand for what the passes have taken off n; q is left. */
  ghost predicate Divided(n: int, q: int, digits: seq<int>) {
    InBase(digits, B58) && q * Pow(B58, |digits|) + Value(digits, B58) == n
  }

  /** One pass moves one base-58 digit from the number to the digits. */
  lemma CarryDigit(n: int, v: int, q: int, r: int, digits: seq<int>)
    requires Divided(n, v, digits) && v == 58 * q + r && 0 <= r < 58
    ensures Divided(n, q, [r] + digits)
  {
    ValueCons(r, digits, B58);
    CarryPower(q, r, Pow(B58, |digits|));
    LettersCons(r, digits);
  }

  lemma CarryPower(q: int, r: int, p: int)
    ensures (58 * q + r) * p == q * (58 * p) + r * p
  {
  }

  /** buffer[--j] = letter; fails when that is outside the buffer. */
  method PutLetter(buffer: array<char>, j0: nat, end: nat, letter: char) returns (ok: bool, j: nat)
    requires j0 > 0
    modifies buffer
    ensures j == j0 - 1 && (ok <==> j < buffer.Length)
    ensures ok && j0 <= end <= buffer.Length ==> buffer[j..end] == [letter] + old(buffer[j0..end])
    ensures ok && j0 <= end <= buffer.Length ==> buffer[end..] == old(buffer[end..])
  {
    j := j0 - 1;
    ok := j < buffer.Length;
    if ok {
      buffer[j] := letter;
    }
  }

  /** One pass: divides, and steps over the leading byte when it has become zero. */
  method Pass(tmp: array<byte>, startAt: nat, length: nat, ghost steps: nat, ghost passes: int)
      returns (remainder: u16, next: nat)
    requires startAt < length <= tmp.Length && PassesBound(passes, steps, tmp[startAt])
    modifies tmp
    ensures remainder < 58 && startAt <= next <= startAt + 1
    ensures Value(old(tmp[startAt..length]), B256) == 58 * Value(tmp[next..length], B256) + remainder
    ensures PassesBound(passes + 1, steps + (next - startAt), if next < length then tmp[next] else 0)
    ensures next == startAt ==> tmp[startAt] < old(tmp[startAt])
  {
    remainder := DivideBy58(tmp, startAt, length);
    next := startAt;
    if tmp[startAt] == 0 {
      SameValue(tmp[startAt..length], tmp[startAt + 1..length], 1);
      next := startAt + 1;
    }
  }

  /** The division loop: fills buffer backwards from 2 * length with the base-58
      letters of the value of tmp; j never falls below 2 * start. The first write is to
      2 * length - 1, so ok says whether all of them are inside the buffer. */
  method DivisionLoop(tmp: array<byte>, buffer: array<char>, length: nat, start: nat)
    returns (ok: bool, j: nat, ghost digits: seq<int>)
    requires start <= length <= tmp.Length
    modifies tmp, buffer
    ensures ok <==> start == length || 2 * length <= buffer.Length
    ensures ok ==> 2 * start <= j <= 2 * length && |digits| == 2 * length - j && (start == length ==> digits == [])
    ensures ok ==> Divided(Value(old(tmp[start..length]), B256), 0, digits)
    ensures ok && 2 * length <= buffer.Length ==> buffer[j..2 * length] == Letters(digits)
  {
    ok, j := true, 2 * length;
    digits := [];
    var startAt := start;
    ghost var n := Value(tmp[start..length], B256);
    assert Pow(B58, 0) == 1;
    while startAt < length
      invariant start <= startAt <= length && j <= 2 * length && |digits| == 2 * length - j
      invariant ok && (start < startAt || j < 2 * length ==> 2 * length <= buffer.Length)
      invariant Divided(n, Value(tmp[startAt..length], B256), digits)
      invariant 2 * length <= buffer.Length ==> buffer[j..2 * length] == Letters(digits)
      invariant PassesBound(2 * length - j, startAt - start, if startAt < length then tmp[startAt] else 0)
      decreases length - startAt, if startAt < length then tmp[startAt] else 0
    {
      ghost var v := Value(tmp[startAt..length], B256);
      var remainder, next := Pass(tmp, startAt, length, startAt - start, 2 * length - j);
      CarryDigit(n, v, Value(tmp[next..length], B256), remainder, digits);
      startAt := next;
      ok, j := PutLetter(buffer, j, 2 * length, Letter(remainder));
      if !ok {
        return;
      }
      LettersCons(remainder, digits);
      digits := [remainder] + digits;
    }
    assert tmp[startAt..length] == [];
  }

  /** Skips the '1's at the start of the numeral. */
  method SkipOnes(buffer: array<char>, low: nat, end: nat) returns (j: nat)
    requires low <= end && (low < end ==> end <= buffer.Length)
    ensures low <= j <= end && (low < end ==> forall i :: low <= i < j ==> buffer[i] == '1')
    ensures j < end ==> buffer[j] != '1'
  {
    j := low;
    while j < end && buffer[j] == '1'
      invariant low <= j <= end && (low < end ==> forall i :: low <= i < j ==> buffer[i] == '1')
    {
      j := j + 1;
    }
  }

  lemma OnesCons(n: nat)
    ensures Ones(n + 1) == ['1'] + Ones(n)
  {
  }

  /** Writes one '1' per leading zero byte in front of the numeral. The first write is to
      top - 1, so ok says whether all of them are inside the buffer. */
  method PadOnes(buffer: array<char>, top: nat, zeros: nat) returns (ok: bool, j: nat)
    requires zeros <= top
    modifies buffer
    ensures ok <==> zeros == 0 || top <= buffer.Length
    ensures ok ==> j == top - zeros
    ensures ok && top <= buffer.Length ==> buffer[j..top] == Ones(zeros) && buffer[top..] == old(buffer[top..])
  {
    ok, j := true, top;
    var zeroCount := zeros;
    while zeroCount > 0
      invariant ok && zeroCount + top == zeros + j && 0 <= zeroCount <= j <= top
      invariant zeroCount < zeros ==> top <= buffer.Length
      invariant top <= buffer.Length ==> buffer[j..top] == Ones(zeros - zeroCount)
      invariant top <= buffer.Length ==> buffer[top..] == old(buffer[top..])
    {
      OnesCons(zeros - zeroCount);
      zeroCount := zeroCount - 1;
      ok, j := PutLetter(buffer, j, top, '1');
      if !ok {
        return;
      }
    }
  }

  /** The final copy with its terminator. */
  method CopyOut(text: seq<char>, out: array<char>, maxOutLen: nat) returns (rc: int)
    requires maxOutLen <= out.Length
    modifies out
    ensures rc == if |text| < maxOutLen then 0 else EXCEPTION_OVERFLOW
    ensures rc == 0 ==> out[..|text| + 1] == text + ['\0'] && out[|text| + 1..] == old(out[|text| + 1..])
    ensures rc != 0 ==> out[..] == old(out[..])
  {
    var length := |text|;
    if maxOutLen < length + 1 {
      return EXCEPTION_OVERFLOW;
    }
    forall i | 0 <= i < length { out[i] := text[i]; }
    out[length] := '\0';
    rc := 0;
  }

  /** Copies the input and counts its leading zero bytes. */
  method LoadInput(input: seq<byte>, tmp: array<byte>) returns (zeroCount: nat)
    requires |input| <= tmp.Length
    modifies tmp
    ensures zeroCount == LeadingZeros(input) && tmp[..|input|] == input
    ensures Value(tmp[zeroCount..|input|], B256) == Value(input, B256)
  {
    var length := |input|;
    forall i | 0 <= i < length { tmp[i] := input[i]; }
    assert tmp[..length] == input;
    zeroCount := 0;
    while zeroCount < length && tmp[zeroCount] == 0
      invariant zeroCount <= length && forall i :: 0 <= i < zeroCount ==> input[i] == 0
    {
      zeroCount := zeroCount + 1;
    }
    LeadingZerosAt(input, zeroCount);
    SameValue(input, tmp[zeroCount..length], zeroCount);
  }

  lemma JoinSlices(buffer: seq<char>, j: nat, top: nat, end: nat)
    requires j <= top <= end <= |buffer|
    ensures buffer[j..end] == buffer[j..top] + buffer[top..end]
    ensures buffer[top..][..end - top] == buffer[top..end]
  {
  }

  /** Where the '1's of the numeral end, and the shortest numeral after them. */
  method SkipZeros(buffer: array<char>, low: nat, end: nat, ghost digits: seq<int>) returns (top: nat)
    requires low <= end <= buffer.Length && InBase(digits, B58) && buffer[low..end] == Letters(digits)
    ensures low <= top <= end && Value(digits, B58) >= 0
    ensures buffer[top..end] == Letters(Numeral(Value(digits, B58), B58))
  {
    ghost var letters := buffer[low..end];
    top := SkipOnes(buffer, low, end);
    assert forall i :: 0 <= i < |letters| ==> letters[i] == buffer[low + i];
    StripZeros(digits, letters, top - low);
    assert letters[top - low..] == buffer[top..end];
  }

  /** The shortest numeral, padded, from the digits the division loop left. */
  method StripAndPad(buffer: array<char>, low: nat, end: nat, zeroCount: nat, ghost digits: seq<int>)
    returns (j: nat)
    requires zeroCount <= low <= end <= buffer.Length
    requires InBase(digits, B58) && buffer[low..end] == Letters(digits)
    modifies buffer
    ensures j <= end && Value(digits, B58) >= 0
    ensures buffer[j..end] == Ones(zeroCount) + Letters(Numeral(Value(digits, B58), B58))
  {
    var top := SkipZeros(buffer, low, end, digits);
    ghost var before := buffer[..];
    var ok;
    ok, j := PadOnes(buffer, top, zeroCount);
    JoinSlices(before, top, top, end);
    JoinSlices(buffer[..], j, top, end);
    assert buffer[top..] == before[top..];
  }

  /** The letters of the input in the work buffer, from position j on; ok says whether
      every write is inside the buffer. */
  method FillBuffer(input: seq<byte>, tmp: array<byte>, buffer: array<char>) returns (ok: bool, j: nat)
    requires |input| <= tmp.Length
    modifies tmp, buffer
    ensures ok <==> 2 * |input| <= buffer.Length || |input| == 0
    ensures ok ==> j <= 2 * |input| <= buffer.Length && buffer[j..2 * |input|] == Encode(input)
  {
    var length := |input|;
    var zeroCount := LoadInput(input, tmp);
    var low;
    ghost var digits;
    ok, low, digits := DivisionLoop(tmp, buffer, length, zeroCount);
    if !ok {
      return false, 0;
    }
    if 2 * length <= buffer.Length {
      j := StripAndPad(buffer, low, 2 * length, zeroCount, digits);
    } else {
      // Only zero bytes: there is no numeral, and the padding starts at the end.
      low := SkipOnes(buffer, low, 2 * length);
      ok, j := PadOnes(buffer, low, zeroCount);
    }
  }

  lemma SameValue(s: seq<byte>, r: seq<byte>, z: nat)
    requires z <= |s| && r == s[z..] && forall i :: 0 <= i < z ==> s[i] == 0
    ensures Value(s, B256) == Value(r, B256)
  {
    assert s == Zeros(z) + r;
    ValueDropZeros(z, r, B256);
  }

  /** encode_base58. The size guard of the program admits up to 64 bytes, but its
      64-byte work buffer has room for twice the length only up to 32: overrun says that
      the program writes outside that buffer, and the model stops there. */
  method EncodeBase58(input: seq<byte>, out: array<char>, maxOutLen: nat) returns (rc: int, overrun: bool)
    requires maxOutLen <= out.Length
    modifies out
    ensures overrun <==> 32 < |input| <= 64
    ensures |input| > 64 ==> rc == INVALID_PARAMETER
    ensures |input| <= 32 ==> rc == if |Encode(input)| < maxOutLen then 0 else EXCEPTION_OVERFLOW
    ensures |input| <= 32 && rc == 0 ==> out[..|Encode(input)| + 1] == Encode(input) + ['\0']
    ensures |input| <= 32 && rc == 0 ==> out[|Encode(input)| + 1..] == old(out[|Encode(input)| + 1..])
    ensures |input| > 32 || rc != 0 ==> out[..] == old(out[..])
  {
    var tmp := new byte[64];
    var buffer := new char[64];
    if |input| > tmp.Length {
      return INVALID_PARAMETER, false;
    }
    var ok, j := FillBuffer(input, tmp, buffer);
    if !ok {
      return -1, true;
    }
    rc := CopyOut(buffer[j..2 * |input|], out, maxOutLen);
    overrun := false;
  }

  lemma {:induction false} LeadingZerosAt(s: seq<int>, z: nat)
    requires z <= |s| && (forall i :: 0 <= i < z ==> s[i] == 0) && (z < |s| ==> s[z] != 0)
    ensures LeadingZeros(s) == z
  {
    if z > 0 {
      LeadingZerosAt(s[1..], z - 1);
    }
  }

  lemma StripDigits(d: seq<int>, k: nat)
    requires InBase(d, B58) && k <= |d|
    requires (forall i :: 0 <= i < k ==> d[i] == 0) && (k < |d| ==> d[k] != 0)
    ensures Value(d, B58) >= 0 && Numeral(Value(d, B58), B58) == d[k..]
  {
    var r := d[k..];
    assert d == Zeros(k) + r;
    assert |r| > 0 ==> r[0] == d[k];
    ValueDropZeros(k, r, B58);
    NumeralUnique(r, B58);
  }

  /** Dropping the leading '1's of a numeral leaves the shortest one. */
  lemma StripZeros(d: seq<int>, t: string, k: nat)
    requires InBase(d, B58) && k <= |d| && t == Letters(d)
    requires (forall i :: 0 <= i < k ==> t[i] == '1') && (k < |d| ==> t[k] != '1')
    ensures Value(d, B58) >= 0 && t[k..] == Letters(Numeral(Value(d, B58), B58))
  {
    forall i | 0 <= i < k
      ensures d[i] == 0
    {
      assert t[i] == Letter(d[i]);
      AlphabetDistinct(d[i], 0);
    }
    StripDigits(d, k);
    assert t[k..] == Letters(d[k..]);
  }
}
