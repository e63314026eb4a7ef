/** libsol/string_utils.c: the byte-level validators, against the encoding of sections
    3 and 4 of RFC 3629. */
module Utf8 {
  import opened Bytes

  /** Unicode scalar values other than U+FFFE and U+FFFF. */
  predicate IsAllowed(c: int) {
    0 <= c <= 0x10FFFF && !(0xD800 <= c <= 0xDFFF) && c != 0xFFFE && c != 0xFFFF
  }

  /** The encoding table of section 3. */
  function Encode(c: int): (s: seq<byte>)
    requires 0 <= c <= 0x10FFFF
    ensures 1 <= |s| <= 4
  {
    if c < 0x80 then [c]
    else if c < 0x800 then [0xC0 + c / 0x40, 0x80 + c % 0x40]
    else if c < 0x10000 then [0xE0 + c / 0x1000, 0x80 + c / 0x40 % 0x40, 0x80 + c % 0x40]
    else [0xF0 + c / 0x40000, 0x80 + c / 0x1000 % 0x40, 0x80 + c / 0x40 % 0x40, 0x80 + c % 0x40]
  }

  ghost predicate AllAllowed(cs: seq<int>) { forall i :: 0 <= i < |cs| ==> IsAllowed(cs[i]) }

  ghost function EncodeAll(cs: seq<int>): seq<byte>
    requires AllAllowed(cs)
  {
    if |cs| == 0 then [] else Encode(cs[0]) + EncodeAll(cs[1..])
  }

  /** s is the encoding of some sequence of allowed characters. */
  ghost predicate IsText(s: seq<byte>) {
    exists cs: seq<int> :: AllAllowed(cs) && EncodeAll(cs) == s
  }

  // ---------- one character ----------

  /** The continuation test (b & 0xc0) == 0x80. */
  predicate Tail(b: byte) { 0x80 <= b < 0xC0 }

  /** Length of the character at the start of s as the program steps over it; 0 when
      the program rejects. Bit tests are written as ranges: (b & 0xe0) == 0xc0 is
      0xC0 <= b < 0xE0, and so on. */
  function StepLength(s: seq<byte>): (n: nat)
    requires |s| > 0
    ensures n <= |s| && n <= 4
  {
    if s[0] < 0x80 then 1
    else if 0xC0 <= s[0] < 0xE0 then
      if |s| < 2 || !Tail(s[1]) || s[0] == 0xC0 || s[0] == 0xC1 then 0 else 2
    else if 0xE0 <= s[0] < 0xF0 then
      if |s| < 3 || !Tail(s[1]) || !Tail(s[2])
         || (s[0] == 0xE0 && 0x80 <= s[1] < 0xA0)
         || (s[0] == 0xED && 0xA0 <= s[1] < 0xC0)
         || (s[0] == 0xEF && s[1] == 0xBF && 0xBE <= s[2] <= 0xBF) then 0 else 3
    else if 0xF0 <= s[0] < 0xF8 then
      if |s| < 4 || !Tail(s[1]) || !Tail(s[2]) || !Tail(s[3])
         || (s[0] == 0xF0 && 0x80 <= s[1] < 0x90)
         || (s[0] == 0xF4 && s[1] > 0x8F) || s[0] > 0xF4 then 0 else 4
    else 0
  }

  function Char2(a: int, b: int): int { (a - 0xC0) * 0x40 + (b - 0x80) }
  function Char3(a: int, b: int, c: int): int { (a - 0xE0) * 0x1000 + (b - 0x80) * 0x40 + (c - 0x80) }
  function Char4(a: int, b: int, c: int, d: int): int {
    (a - 0xF0) * 0x40000 + (b - 0x80) * 0x1000 + (c - 0x80) * 0x40 + (d - 0x80)
  }

  /** The character encoded in the bytes s. */
  function CharOf(s: seq<byte>): int
    requires 1 <= |s| <= 4
  {
    if |s| == 1 then s[0]
    else if |s| == 2 then Char2(s[0], s[1])
    else if |s| == 3 then Char3(s[0], s[1], s[2])
    else Char4(s[0], s[1], s[2], s[3])
  }

  lemma Split2(c: int, a: int, b: int)
    requires 0 <= a && 0 <= b < 0x40 && c == a * 0x40 + b
    ensures c / 0x40 == a && c % 0x40 == b
  {
  }

  lemma Split3(c: int, a: int, b: int, d: int)
    requires 0 <= a && 0 <= b < 0x40 && 0 <= d < 0x40 && c == a * 0x1000 + b * 0x40 + d
    ensures c / 0x1000 == a && c / 0x40 % 0x40 == b && c % 0x40 == d
  {
    Split2(c, a * 0x40 + b, d);
    Split2(a * 0x40 + b, a, b);
  }

  lemma Split4(c: int, a: int, b: int, d: int, e: int)
    requires 0 <= a && 0 <= b < 0x40 && 0 <= d < 0x40 && 0 <= e < 0x40
    requires c == a * 0x40000 + b * 0x1000 + d * 0x40 + e
    ensures c / 0x40000 == a && c / 0x1000 % 0x40 == b && c / 0x40 % 0x40 == d && c % 0x40 == e
  {
    Split3(c, a * 0x40 + b, d, e);
    Split2(a * 0x40 + b, a, b);
  }

  // The characters of two, three and four bytes that the program's tests let through.

  lemma TwoBytes(a: byte, b: byte)
    requires 0xC2 <= a < 0xE0 && Tail(b)
    ensures IsAllowed(Char2(a, b)) && Encode(Char2(a, b)) == [a, b]
  {
    Split2(Char2(a, b), a as int - 0xC0, b as int - 0x80);
  }

  lemma ThreeBytes(a: byte, b: byte, c: byte)
    requires 0xE0 <= a < 0xF0 && Tail(b) && Tail(c)
    requires (a == 0xE0 ==> b >= 0xA0) && (a == 0xED ==> b < 0xA0) && !(a == 0xEF && b == 0xBF && c >= 0xBE)
    ensures IsAllowed(Char3(a, b, c)) && Encode(Char3(a, b, c)) == [a, b, c]
  {
    Split3(Char3(a, b, c), a as int - 0xE0, b as int - 0x80, c as int - 0x80);
  }

  lemma FourBytes(a: byte, b: byte, c: byte, d: byte)
    requires 0xF0 <= a <= 0xF4 && Tail(b) && Tail(c) && Tail(d)
    requires (a == 0xF0 ==> b >= 0x90) && (a == 0xF4 ==> b <= 0x8F)
    ensures IsAllowed(Char4(a, b, c, d)) && Encode(Char4(a, b, c, d)) == [a, b, c, d]
  {
    Split4(Char4(a, b, c, d), a as int - 0xF0, b as int - 0x80, c as int - 0x80, d as int - 0x80);
  }

  /** A step accepted by the program covers the encoding of one allowed character. */
  lemma StepIsCharacter(s: seq<byte>)
    requires |s| > 0 && StepLength(s) > 0
    ensures IsAllowed(CharOf(s[..StepLength(s)])) && Encode(CharOf(s[..StepLength(s)])) == s[..StepLength(s)]
  {
    var n := StepLength(s);
    if n == 1 {
      assert s[..n] == [s[0]];
    } else if n == 2 {
      TwoBytes(s[0], s[1]);
      assert s[..n] == [s[0], s[1]];
    } else if n == 3 {
      ThreeBytes(s[0], s[1], s[2]);
      assert s[..n] == [s[0], s[1], s[2]];
    } else {
      FourBytes(s[0], s[1], s[2], s[3]);
      assert s[..n] == [s[0], s[1], s[2], s[3]];
    }
  }

  lemma Join3(c: int)
    requires 0 <= c
    ensures Char3(0xE0 + c / 0x1000, 0x80 + c / 0x40 % 0x40, 0x80 + c % 0x40) == c
  {
    assert c / 0x1000 == c / 0x40 / 0x40;
  }

  lemma Join4(c: int)
    requires 0 <= c
    ensures Char4(0xF0 + c / 0x40000, 0x80 + c / 0x1000 % 0x40, 0x80 + c / 0x40 % 0x40, 0x80 + c % 0x40) == c
  {
    assert c / 0x1000 == c / 0x40 / 0x40 && c / 0x40000 == c / 0x1000 / 0x40;
  }

  /** Conversely the program accepts and exactly covers the encoding of any allowed
      character, whatever follows it. */
  lemma CharacterIsStep(c: int, t: seq<byte>)
    requires IsAllowed(c)
    ensures StepLength(Encode(c) + t) == |Encode(c)| && CharOf(Encode(c)) == c
  {
    if c >= 0x10000 {
      Join4(c);
    } else if c >= 0x800 {
      Join3(c);
    }
  }

  // ---------- whole texts ----------

  lemma TextTail(s: seq<byte>, c: int, cs: seq<int>)
    requires IsAllowed(c) && AllAllowed(cs) && s == Encode(c) + EncodeAll(cs)
    ensures AllAllowed([c] + cs) && EncodeAll([c] + cs) == s
  {
    assert ([c] + cs)[1..] == cs;
  }

  /** The program's step loses nothing: the rest is a text exactly when the whole is. */
  lemma StepKeepsText(s: seq<byte>)
    requires |s| > 0
    ensures StepLength(s) == 0 ==> !IsText(s)
    ensures StepLength(s) > 0 ==> (IsText(s) <==> IsText(s[StepLength(s)..]))
  {
    var n := StepLength(s);
    if IsText(s) {
      var cs: seq<int> :| AllAllowed(cs) && EncodeAll(cs) == s;
      CharacterIsStep(cs[0], EncodeAll(cs[1..]));
      assert s[n..] == EncodeAll(cs[1..]);
    }
    if n > 0 && IsText(s[n..]) {
      var cs: seq<int> :| AllAllowed(cs) && EncodeAll(cs) == s[n..];
      StepIsCharacter(s);
      assert s == s[..n] + s[n..];
      TextTail(s, CharOf(s[..n]), cs);
    }
  }

  lemma EmptyText()
    ensures IsText([])
  {
    assert AllAllowed([]) && EncodeAll([]) == [];
  }

  /** is_data_utf8; None stands for NULL. */
  method IsDataUtf8(data: Option<seq<byte>>) returns (r: bool)
    ensures r <==> data.Some? && IsText(data.value)
  {
    if data.None? {
      return false;
    }
    var d := data.value;
    var i := 0;
    while i < |d|
      invariant 0 <= i <= |d|
      invariant IsText(d) <==> IsText(d[i..])
    {
      StepKeepsText(d[i..]);
      ghost var n := StepLength(d[i..]);
      assert n > 0 ==> d[i..][n..] == d[i + n..];
      if d[i] < 0x80 {
        i := i + 1;
      } else if 0xC0 <= d[i] < 0xE0 {
        if i + 1 >= |d| || !Tail(d[i + 1]) || d[i] == 0xC0 || d[i] == 0xC1 {
          return false;
        } else {
          i := i + 2;
        }
      } else if 0xE0 <= d[i] < 0xF0 {
        if i + 2 >= |d| || !Tail(d[i + 1]) || !Tail(d[i + 2])
           || (d[i] == 0xE0 && 0x80 <= d[i + 1] < 0xA0)
           || (d[i] == 0xED && 0xA0 <= d[i + 1] < 0xC0)
           || (d[i] == 0xEF && d[i + 1] == 0xBF && 0xBE <= d[i + 2] <= 0xBF) {
          return false;
        } else {
          i := i + 3;
        }
      } else if 0xF0 <= d[i] < 0xF8 {
        if i + 3 >= |d| || !Tail(d[i + 1]) || !Tail(d[i + 2]) || !Tail(d[i + 3])
           || (d[i] == 0xF0 && 0x80 <= d[i + 1] < 0x90)
           || (d[i] == 0xF4 && d[i + 1] > 0x8F) || d[i] > 0xF4 {
          return false;
        } else {
          i := i + 4;
        }
      } else {
        return false;
      }
    }
    assert d[i..] == [];
    EmptyText();
    return true;
  }

  predicate IsAscii(s: seq<byte>) {
    forall i :: 0 <= i < |s| ==> s[i] == 0x0A || 0x20 <= s[i] <= 0x7E
  }

  /** is_data_ascii: printable characters and line feeds. */
  method IsDataAscii(data: Option<seq<byte>>) returns (r: bool)
    ensures r <==> data.Some? && IsAscii(data.value)
  {
    if data.None? {
      return false;
    }
    for i := 0 to |data.value|
      invariant forall j :: 0 <= j < i ==> data.value[j] == 0x0A || 0x20 <= data.value[j] <= 0x7E
    {
      if (data.value[i] < 0x20 && data.value[i] != 0x0A) || data.value[i] > 0x7E {
        return false;
      }
    }
    return true;
  }

  /** The characters by range, and how the first and last of each length are written. */
  lemma CharactersAre(c: int)
    ensures IsAllowed(c) <==> 0 <= c < 0xD800 || 0xE000 <= c < 0xFFFE || 0x10000 <= c < 0x110000
    ensures Encode(0x7F) == [0x7F] && Encode(0x80) == [0xC2, 0x80] && Encode(0x7FF) == [0xDF, 0xBF]
    ensures Encode(0x800) == [0xE0, 0xA0, 0x80] && Encode(0xFFFD) == [0xEF, 0xBF, 0xBD]
    ensures Encode(0x10000) == [0xF0, 0x90, 0x80, 0x80] && Encode(0x10FFFF) == [0xF4, 0x8F, 0xBF, 0xBF]
  {
  }

  /** A byte is such an ASCII text exactly when it is a line feed or between space and tilde. */
  lemma AsciiByteIff(b: byte)
    ensures IsAscii([b]) <==> b == '\n' as int || ' ' as int <= b <= '~' as int
  {
    assert [b][0] == b;
  }

  // ---------- consequences ----------

  lemma {:induction false} EncodeAllConcat(cs: seq<int>, ds: seq<int>)
    requires AllAllowed(cs) && AllAllowed(ds)
    ensures AllAllowed(cs + ds) && EncodeAll(cs + ds) == EncodeAll(cs) + EncodeAll(ds)
  {
    if |cs| == 0 {
      assert cs + ds == ds;
    } else {
      EncodeAllConcat(cs[1..], ds);
      assert (cs + ds)[1..] == cs[1..] + ds && (cs + ds)[0] == cs[0];
      Assoc(Encode(cs[0]), EncodeAll(cs[1..]), EncodeAll(ds));
    }
  }

  /** Accepted strings are closed under concatenation. */
  lemma TextConcat(s: seq<byte>, t: seq<byte>)
    requires IsText(s) && IsText(t)
    ensures IsText(s + t)
  {
    var cs: seq<int> :| AllAllowed(cs) && EncodeAll(cs) == s;
    var ds: seq<int> :| AllAllowed(ds) && EncodeAll(ds) == t;
    EncodeAllConcat(cs, ds);
  }

  /** Every ASCII message is a UTF-8 message. */
  lemma {:induction false} AsciiIsText(s: seq<byte>)
    requires IsAscii(s)
    ensures IsText(s)
  {
    if |s| == 0 {
      EmptyText();
    } else {
      AsciiIsText(s[1..]);
      StepKeepsText(s);
    }
  }

  lemma SameSplit(a: seq<byte>, t: seq<byte>, b: seq<byte>, u: seq<byte>)
    requires |a| == |b| && a + t == b + u
    ensures a == b && t == u
  {
    assert a == (a + t)[..|a|] && b == (b + u)[..|b|] && t == (a + t)[|a|..] && u == (b + u)[|b|..];
  }

  lemma NonEmptyText(cs: seq<int>)
    requires AllAllowed(cs)
    ensures |EncodeAll(cs)| == 0 <==> |cs| == 0
  {
  }

  /** A text has one reading: the character sequence is determined by the bytes. */
  lemma {:induction false} ReadingUnique(cs: seq<int>, ds: seq<int>)
    requires AllAllowed(cs) && AllAllowed(ds) && EncodeAll(cs) == EncodeAll(ds)
    ensures cs == ds
  {
    NonEmptyText(cs);
    NonEmptyText(ds);
    if |cs| > 0 && |ds| > 0 {
      var t, u := EncodeAll(cs[1..]), EncodeAll(ds[1..]);
      CharacterIsStep(cs[0], t);
      CharacterIsStep(ds[0], u);
      SameSplit(Encode(cs[0]), t, Encode(ds[0]), u);
      ReadingUnique(cs[1..], ds[1..]);
      assert cs == [cs[0]] + cs[1..] && ds == [ds[0]] + ds[1..];
    }
  }
}
