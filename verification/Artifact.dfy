/** The artifact hash of libsol/agenc_instruction.c: "artifact:sha256:" followed by
    unpadded base64url, decoded six bits at a time. */
module Artifact {
  import opened Bytes
  import opened Wire

  const RESULT_DATA_SIZE := 64
  const PREFIX_SIZE := 16
  const B64_SIZE := 43

  /** "artifact:sha256:" */
  const PREFIX: seq<byte> :=
    [0x61, 0x72, 0x74, 0x69, 0x66, 0x61, 0x63, 0x74, 0x3a, 0x73, 0x68, 0x61, 0x32, 0x35, 0x36, 0x3a]

  // ---------- the text form (section 5 of RFC 4648) ----------

  function Character(v: int): byte
    requires 0 <= v < 64
  {
    if v < 26 then 0x41 + v
    else if v < 52 then 0x61 + v - 26
    else if v < 62 then 0x30 + v - 52
    else if v == 62 then 0x2d
    else 0x5f
  }

  /** 24 bits cut where a byte or a six-bit value ends. */
  datatype Cut = Cut(v0: int, h1: int, l1: int, h2: int, l2: int, v3: int) {
    predicate Valid() {
      0 <= v0 < 64 && 0 <= h1 < 4 && 0 <= l1 < 16 && 0 <= h2 < 16 && 0 <= l2 < 4 && 0 <= v3 < 64
    }

    /** The four characters. */
    function Text(): (t: seq<byte>)
      requires Valid()
      ensures |t| == 4
    {
      [Character(v0), Character(h1 * 16 + l1), Character(h2 * 4 + l2), Character(v3)]
    }
  }

  function CutBytes(a: byte, b: byte, c: byte): (q: Cut)
    ensures q.Valid() && a == q.v0 * 4 + q.h1 && b == q.l1 * 16 + q.h2 && c == q.l2 * 64 + q.v3
  {
    Cut(a / 4, a % 4, b / 16, b % 16, c / 64, c % 64)
  }

  /** Three bytes to four characters; a shorter last group is padded with zero bits, and
      there are no padding characters. */
  function Encode(h: seq<byte>): seq<byte> {
    if |h| == 0 then []
    else if |h| == 1 then CutBytes(h[0], 0, 0).Text()[..2]
    else if |h| == 2 then CutBytes(h[0], h[1], 0).Text()[..3]
    else CutBytes(h[0], h[1], h[2]).Text() + Encode(h[3..])
  }

  /** The start of a result field that names the artifact with hash h. */
  function ArtifactText(h: seq<byte>): seq<byte> {
    PREFIX + Encode(h) + [0]
  }

  // ---------- the decoder ----------

  /** base64url_value */
  function Base64UrlValue(c: byte): int {
    if 0x41 <= c <= 0x5a then c - 0x41
    else if 0x61 <= c <= 0x7a then c - 0x61 + 26
    else if 0x30 <= c <= 0x39 then c - 0x30 + 52
    else if c == 0x2d then 62
    else if c == 0x5f then 63
    else -1
  }

  lemma ValueInverts(c: byte, v: int)
    requires 0 <= v < 64
    ensures Base64UrlValue(c) == v <==> c == Character(v)
    ensures -1 <= Base64UrlValue(c) < 64
  {
  }

  datatype State = State(acc: u32, bits: byte, out: seq<byte>)

  function Pow2(n: nat): (p: nat)
    ensures p >= 1
  {
    if n == 0 then 1 else 2 * Pow2(n - 1)
  }

  /** x >> n */
  function ShiftRight(x: u32, n: nat): (r: u32)
  {
    if n == 0 then x else ShiftRight(x / 2, n - 1)
  }

  /** x & ((1 << n) - 1) */
  function LowBits(x: u32, n: nat): (r: u32)
    ensures r <= x && r < Pow2(n)
  {
    if n == 0 then 0 else x % 2 + 2 * LowBits(x / 2, n - 1)
  }

  lemma ShiftTwo(x: u32)
    ensures ShiftRight(x, 2) == x / 4 && LowBits(x, 2) == x % 4
  {
    assert ShiftRight(x, 2) == ShiftRight(x / 2, 1) == x / 2 / 2;
    assert LowBits(x / 2, 1) == x / 2 % 2;
  }

  lemma SmallShifts(x: u32)
    ensures ShiftRight(x, 0) == x && ShiftRight(x, 2) == x / 4 && ShiftRight(x, 4) == x / 16
    ensures LowBits(x, 0) == 0 && LowBits(x, 2) == x % 4 && LowBits(x, 4) == x % 16
  {
    ShiftTwo(x);
    ShiftTwo(x / 2 / 2);
    assert ShiftRight(x, 4) == ShiftRight(x / 2, 3) == ShiftRight(x / 2 / 2, 2);
    assert LowBits(x, 4) == x % 2 + 2 * LowBits(x / 2, 3);
    assert LowBits(x / 2, 3) == x / 2 % 2 + 2 * LowBits(x / 2 / 2, 2);
  }

  /** The inner loop: whole bytes leave the accumulator from the top. */
  function Drain(st: State): (r: Option<State>)
    ensures r.Some? ==> r.value.bits < 8
    decreases st.bits
  {
    if st.bits < 8 then Some(st)
    else if |st.out| >= HASH_SIZE then None
    else
      var b := st.bits - 8;
      Drain(State(LowBits(st.acc, b), b, st.out + [ShiftRight(st.acc, b) % 0x100]))
  }

  /** One character of the outer loop. */
  function Consume(st: State, c: byte): (r: Option<State>)
    requires st.bits < 8
    ensures r.Some? ==> r.value.bits < 8
  {
    var v := Base64UrlValue(c);
    if v < 0 then None else Drain(State(Wrap32(st.acc * 64) + v, st.bits + 6, st.out))
  }

  function Scan(st: State, text: seq<byte>): (r: Option<State>)
    requires st.bits < 8
    ensures r.Some? ==> r.value.bits < 8
    decreases |text|
  {
    if |text| == 0 then Some(st)
    else
      var d := Consume(st, text[0]);
      if d.None? then None else Scan(d.value, text[1..])
  }

  // ---------- the decoder inverts the text form ----------

  ghost predicate Sound(st: State) {
    (st.bits == 0 || st.bits == 2 || st.bits == 4 || st.bits == 6) && st.acc < Pow2(st.bits)
  }

  /** One character: six bits in, at most one byte out. */
  function Next(st: State, v: int): State
    requires Sound(st) && 0 <= v < 64
  {
    assert st.acc < 64 by { SmallPowers(); }
    var x := st.acc * 64 + v;
    if st.bits == 0 then State(v, 6, st.out)
    else State(LowBits(x, st.bits - 2), st.bits - 2, st.out + [ShiftRight(x, st.bits - 2) % 0x100])
  }

  lemma SmallPowers()
    ensures Pow2(0) == 1 && Pow2(2) == 4 && Pow2(4) == 16 && Pow2(6) == 64
  {
    assert Pow2(2) == 2 * Pow2(1) && Pow2(4) == 2 * Pow2(3) && Pow2(6) == 2 * Pow2(5);
  }

  lemma StepOf(st: State, v: int, c: byte)
    requires Sound(st) && 0 <= v < 64 && (st.bits == 0 || |st.out| < HASH_SIZE) && Base64UrlValue(c) == v
    ensures Consume(st, c) == Some(Next(st, v))
    ensures Sound(Next(st, v))
    ensures 8 * |Next(st, v).out| + Next(st, v).bits == 8 * |st.out| + st.bits + 6
  {
    NextSound(st, v);
    ConsumeIs(st, v, c);
  }

  lemma NextSound(st: State, v: int)
    requires Sound(st) && 0 <= v < 64
    ensures Sound(Next(st, v))
    ensures 8 * |Next(st, v).out| + Next(st, v).bits == 8 * |st.out| + st.bits + 6
  {
    SmallPowers();
  }

  lemma ConsumeIs(st: State, v: int, c: byte)
    requires Sound(st) && 0 <= v < 64 && (st.bits == 0 || |st.out| < HASH_SIZE) && Base64UrlValue(c) == v
    ensures Consume(st, c) == Some(Next(st, v))
  {
    SmallPowers();
    assert Wrap32(st.acc * 64) == st.acc * 64;
    if st.bits > 0 {
      DrainOne(State(st.acc * 64 + v, st.bits + 6, st.out), st.bits - 2);
    } else {
      DrainNone(State(st.acc * 64 + v, st.bits + 6, st.out));
    }
  }

  lemma DrainNone(st: State)
    requires st.bits < 8
    ensures Drain(st) == Some(st)
  {
  }

  lemma DrainOne(st: State, b: nat)
    requires st.bits == b + 8 && b < 8 && |st.out| < HASH_SIZE
    ensures Drain(st) == Some(State(LowBits(st.acc, b), b, st.out + [ShiftRight(st.acc, b) % 0x100]))
  {
    var d := State(LowBits(st.acc, b), b, st.out + [ShiftRight(st.acc, b) % 0x100]);
    assert Drain(d) == Some(d);
  }

  /** The accumulator stays below 2^bits and the output check never fires: on up to 43
      characters the scan stops early only at a character outside the alphabet. */
  lemma {:induction false} ScanBounds(st: State, text: seq<byte>)
    requires Sound(st) && 8 * |st.out| + st.bits + 6 * |text| <= 8 * HASH_SIZE + 2
    ensures Scan(st, text).Some? <==> forall i :: 0 <= i < |text| ==> Base64UrlValue(text[i]) >= 0
    ensures Scan(st, text).Some? ==>
              (var r := Scan(st, text).value; Sound(r) && 8 * |r.out| + r.bits == 8 * |st.out| + st.bits + 6 * |text|)
    decreases |text|
  {
    if |text| > 0 && Base64UrlValue(text[0]) >= 0 {
      ValueInverts(text[0], Base64UrlValue(text[0]));
      StepOf(st, Base64UrlValue(text[0]), text[0]);
      ScanBounds(Next(st, Base64UrlValue(text[0])), text[1..]);
      assert text == [text[0]] + text[1..];
      assert forall i :: 0 <= i < |text| - 1 ==> text[1..][i] == text[i + 1];
      assert forall i :: 0 < i < |text| ==> text[i] == text[1..][i - 1];
    }
  }

  // The four phases of a group. v is split where the byte ends: v == hi * 2^k + lo.

  lemma SplitByte(high: nat, low: nat, n: nat)
    requires low < n && high < 0x100 && (n == 4 || n == 16)
    ensures (high * n + low) / n % 0x100 == high && (high * n + low) % n == low
  {
  }

  lemma NextFirst(v: nat, out: seq<byte>)
    requires v < 64
    ensures Sound(State(0, 0, out)) && Next(State(0, 0, out), v) == State(v, 6, out) && Sound(State(v, 6, out))
  {
    SmallPowers();
  }

  lemma NextSecond(acc: nat, hi: nat, lo: nat, out: seq<byte>)
    requires acc < 64 && hi < 4 && lo < 16
    ensures Sound(State(acc, 6, out)) && Next(State(acc, 6, out), hi * 16 + lo) == State(lo, 4, out + [acc * 4 + hi])
  {
    SmallPowers();
    SmallShifts(acc * 64 + (hi * 16 + lo));
    SplitByte(acc * 4 + hi, lo, 16);
  }

  lemma NextThird(acc: nat, hi: nat, lo: nat, out: seq<byte>)
    requires acc < 16 && hi < 16 && lo < 4
    ensures Sound(State(acc, 4, out)) && Next(State(acc, 4, out), hi * 4 + lo) == State(lo, 2, out + [acc * 16 + hi])
  {
    SmallPowers();
    SmallShifts(acc * 64 + (hi * 4 + lo));
    SplitByte(acc * 16 + hi, lo, 4);
  }

  lemma NextFourth(acc: nat, v: nat, out: seq<byte>)
    requires acc < 4 && v < 64
    ensures Sound(State(acc, 2, out)) && Next(State(acc, 2, out), v) == State(0, 0, out + [acc * 64 + v])
  {
    SmallPowers();
  }

  lemma ScanOne(st: State, v: int, text: seq<byte>)
    requires Sound(st) && 0 <= v < 64 && (st.bits == 0 || |st.out| < HASH_SIZE)
    requires |text| > 0 && Base64UrlValue(text[0]) == v
    ensures Scan(st, text) == Scan(Next(st, v), text[1..])
  {
    StepOf(st, v, text[0]);
  }

  /** Four characters for three bytes. */
  function TextSize(n: nat): nat {
    if n == 0 then 0 else if n == 1 then 2 else if n == 2 then 3 else 4 + TextSize(n - 3)
  }

  lemma HashTextSize()
    ensures TextSize(HASH_SIZE) == B64_SIZE
  {
    assert TextSize(11) == 15 && TextSize(20) == 27;
  }

  lemma CutNoNul(q: Cut)
    requires q.Valid()
    ensures forall i :: 0 <= i < 4 ==> q.Text()[i] != 0
  {
  }

  lemma {:induction false} EncodeSize(h: seq<byte>)
    ensures |Encode(h)| == TextSize(|h|)
    ensures forall i :: 0 <= i < |Encode(h)| ==> Encode(h)[i] != 0
  {
    if |h| >= 3 {
      EncodeSize(h[3..]);
      CutNoNul(CutBytes(h[0], h[1], h[2]));
    } else if |h| > 0 {
      CutNoNul(CutBytes(h[0], if |h| > 1 then h[1] else 0, 0));
    }
  }

  /** A hash has 43 characters, none of them NUL. */
  lemma EncodeLength(h: seq<byte>)
    requires |h| == HASH_SIZE
    ensures |Encode(h)| == B64_SIZE && forall i :: 0 <= i < |Encode(h)| ==> Encode(h)[i] != 0
  {
    EncodeSize(h);
    HashTextSize();
  }

  /** text starts with the characters of q, as many as text has. */
  ghost predicate Spells(text: seq<byte>, q: Cut) {
    && q.Valid()
    && (|text| > 0 ==> Base64UrlValue(text[0]) == q.v0)
    && (|text| > 1 ==> Base64UrlValue(text[1]) == q.h1 * 16 + q.l1)
    && (|text| > 2 ==> Base64UrlValue(text[2]) == q.h2 * 4 + q.l2)
    && (|text| > 3 ==> Base64UrlValue(text[3]) == q.v3)
  }

  lemma SpellsIff(text: seq<byte>, q: Cut)
    requires q.Valid()
    ensures Spells(text, q) <==> if |text| < 4 then text == q.Text()[..|text|] else text[..4] == q.Text()
  {
    var t := q.Text();
    if |text| > 0 { ValueInverts(text[0], q.v0); }
    if |text| > 1 { ValueInverts(text[1], q.h1 * 16 + q.l1); }
    if |text| > 2 { ValueInverts(text[2], q.h2 * 4 + q.l2); }
    if |text| > 3 { ValueInverts(text[3], q.v3); }
    var n := if |text| < 4 then |text| else 4;
    assert text[..n] == t[..n] <==> forall i :: 0 <= i < n ==> text[i] == t[i];
    assert |text| == n ==> text[..n] == text;
    assert t[..4] == t;
  }

  lemma {:induction false} ScanTwo(out: seq<byte>, q: Cut, text: seq<byte>)
    requires Spells(text, q) && |out| < HASH_SIZE && |text| >= 2
    ensures Scan(State(0, 0, out), text) == Scan(State(q.l1, 4, out + [q.v0 * 4 + q.h1]), text[2..])
  {
    NextFirst(q.v0, out);
    ScanOne(State(0, 0, out), q.v0, text);
    NextSecond(q.v0, q.h1, q.l1, out);
    ScanOne(State(q.v0, 6, out), q.h1 * 16 + q.l1, text[1..]);
    assert text[1..][1..] == text[2..];
  }

  lemma {:induction false} ScanThree(out: seq<byte>, q: Cut, text: seq<byte>)
    requires Spells(text, q) && |out| + 1 < HASH_SIZE && |text| >= 3
    ensures Scan(State(0, 0, out), text)
         == Scan(State(q.l2, 2, out + [q.v0 * 4 + q.h1, q.l1 * 16 + q.h2]), text[3..])
  {
    var one := out + [q.v0 * 4 + q.h1];
    ScanTwo(out, q, text);
    NextThird(q.l1, q.h2, q.l2, one);
    ScanOne(State(q.l1, 4, one), q.h2 * 4 + q.l2, text[2..]);
    assert text[2..][1..] == text[3..];
    assert one + [q.l1 * 16 + q.h2] == out + [q.v0 * 4 + q.h1, q.l1 * 16 + q.h2];
  }

  lemma {:induction false} ScanGroup(out: seq<byte>, q: Cut, text: seq<byte>)
    requires Spells(text, q) && |out| + 2 < HASH_SIZE && |text| >= 4
    ensures Scan(State(0, 0, out), text)
         == Scan(State(0, 0, out + [q.v0 * 4 + q.h1, q.l1 * 16 + q.h2, q.l2 * 64 + q.v3]), text[4..])
  {
    var two := out + [q.v0 * 4 + q.h1, q.l1 * 16 + q.h2];
    ScanThree(out, q, text);
    NextFourth(q.l2, q.v3, two);
    ScanOne(State(q.l2, 2, two), q.v3, text[3..]);
    assert text[3..][1..] == text[4..];
    assert two + [q.l2 * 64 + q.v3] == out + [q.v0 * 4 + q.h1, q.l1 * 16 + q.h2, q.l2 * 64 + q.v3];
  }

  lemma {:induction false} ScanEncode(out: seq<byte>, h: seq<byte>)
    requires |out| + |h| <= HASH_SIZE
    ensures var r := Scan(State(0, 0, out), Encode(h));
            r.Some? && r.value.acc == 0 && r.value.out == out + h
    decreases |h|
  {
    if |h| == 0 {
      assert out + h == out;
    } else if |h| < 3 {
      ScanShort(out, h, CutBytes(h[0], if |h| > 1 then h[1] else 0, 0));
    } else {
      ScanLong(out, h, CutBytes(h[0], h[1], h[2]), Encode(h));
      ScanEncode(out + h[..3], h[3..]);
      assert out + h[..3] + h[3..] == out + h;
    }
  }

  lemma {:induction false} ScanShort(out: seq<byte>, h: seq<byte>, q: Cut)
    requires |out| + |h| <= HASH_SIZE && 0 < |h| < 3 && q == CutBytes(h[0], if |h| > 1 then h[1] else 0, 0)
    ensures var r := Scan(State(0, 0, out), Encode(h));
            r.Some? && r.value.acc == 0 && r.value.out == out + h
  {
    SpellsIff(Encode(h), q);
    if |h| == 1 {
      ScanOneByte(out, h, q, Encode(h));
    } else {
      ScanTwoBytes(out, h, q, Encode(h));
    }
  }

  lemma {:induction false} ScanOneByte(out: seq<byte>, h: seq<byte>, q: Cut, t: seq<byte>)
    requires Spells(t, q) && |out| < HASH_SIZE && |t| == 2 && h == [q.v0 * 4 + q.h1] && q.l1 == 0
    ensures var r := Scan(State(0, 0, out), t); r.Some? && r.value.acc == 0 && r.value.out == out + h
  {
    ScanTwo(out, q, t);
    assert t[2..] == [];
  }

  lemma ScanTwoBytes(out: seq<byte>, h: seq<byte>, q: Cut, t: seq<byte>)
    requires Spells(t, q) && |out| + 1 < HASH_SIZE && |t| == 3 && q.l2 == 0
    requires h == [q.v0 * 4 + q.h1, q.l1 * 16 + q.h2]
    ensures var r := Scan(State(0, 0, out), t); r.Some? && r.value.acc == 0 && r.value.out == out + h
  {
    ScanThree(out, q, t);
    assert t[3..] == [];
  }

  lemma EncodeLong(h: seq<byte>, q: Cut, t: seq<byte>)
    requires |h| >= 3 && q == CutBytes(h[0], h[1], h[2]) && t == Encode(h)
    ensures |t| >= 4 && t[4..] == Encode(h[3..]) && Spells(t, q)
  {
    var tail := Encode(h[3..]);
    assert t == q.Text() + tail;
    SpellsIff(t, q);
  }

  lemma FirstThree(h: seq<byte>, q: Cut)
    requires |h| >= 3 && q == CutBytes(h[0], h[1], h[2])
    ensures h[..3] == [q.v0 * 4 + q.h1, q.l1 * 16 + q.h2, q.l2 * 64 + q.v3]
  {
  }

  lemma ScanLong(out: seq<byte>, h: seq<byte>, q: Cut, t: seq<byte>)
    requires |out| + |h| <= HASH_SIZE && |h| >= 3 && q == CutBytes(h[0], h[1], h[2]) && t == Encode(h)
    ensures Scan(State(0, 0, out), t) == Scan(State(0, 0, out + h[..3]), Encode(h[3..]))
  {
    FirstThree(h, q);
    EncodeLong(h, q, t);
    ScanGroup(out, q, t);
  }

  function ValueAt(text: seq<byte>, i: nat): (v: nat)
    requires i < |text| ==> Base64UrlValue(text[i]) >= 0
    ensures v < 64 && (i < |text| ==> Base64UrlValue(text[i]) == v)
  {
    if i < |text| then Base64UrlValue(text[i]) else 0
  }

  /** The cut of the first characters; zero where text is shorter. */
  lemma CutText(text: seq<byte>) returns (q: Cut)
    requires forall i :: 0 <= i < 4 && i < |text| ==> Base64UrlValue(text[i]) >= 0
    ensures Spells(text, q) && (|text| <= 3 ==> q.v3 == 0) && (|text| <= 2 ==> q.h2 == q.l2 == 0)
    ensures q == CutBytes(q.v0 * 4 + q.h1, q.l1 * 16 + q.h2, q.l2 * 64 + q.v3)
  {
    q := CutValues(ValueAt(text, 0), ValueAt(text, 1), ValueAt(text, 2), ValueAt(text, 3));
    CutAgain(q);
  }

  function CutValues(v0: nat, v1: nat, v2: nat, v3: nat): (q: Cut)
    requires v0 < 64 && v1 < 64 && v2 < 64 && v3 < 64
    ensures q.Valid() && q.v0 == v0 && q.h1 * 16 + q.l1 == v1 && q.h2 * 4 + q.l2 == v2 && q.v3 == v3
    ensures v2 == 0 ==> q.h2 == q.l2 == 0
  {
    Cut(v0, v1 / 16, v1 % 16, v2 / 4, v2 % 4, v3)
  }

  /** A cut is that of its own bytes. */
  lemma CutAgain(q: Cut)
    requires q.Valid()
    ensures q == CutBytes(q.v0 * 4 + q.h1, q.l1 * 16 + q.h2, q.l2 * 64 + q.v3)
  {
  }

  lemma ScanDecodesTwo(out: seq<byte>, q: Cut, text: seq<byte>) returns (h: seq<byte>)
    requires |text| == 2 && |out| < HASH_SIZE && Spells(text, q) && q.h2 == q.l2 == q.v3 == 0
    requires q == CutBytes(q.v0 * 4 + q.h1, q.l1 * 16 + q.h2, q.l2 * 64 + q.v3)
    requires var r := Scan(State(0, 0, out), text); r.Some? && r.value.acc == 0
    ensures Scan(State(0, 0, out), text).value.out == out + h && text == Encode(h)
  {
    ScanTwo(out, q, text);
    SpellsIff(text, q);
    h := [q.v0 * 4 + q.h1];
  }

  lemma ScanDecodesThree(out: seq<byte>, q: Cut, text: seq<byte>) returns (h: seq<byte>)
    requires |text| == 3 && |out| + 1 < HASH_SIZE && Spells(text, q) && q.v3 == 0
    requires q == CutBytes(q.v0 * 4 + q.h1, q.l1 * 16 + q.h2, q.l2 * 64 + q.v3)
    requires var r := Scan(State(0, 0, out), text); r.Some? && r.value.acc == 0
    ensures Scan(State(0, 0, out), text).value.out == out + h && text == Encode(h)
  {
    ScanThree(out, q, text);
    SpellsIff(text, q);
    h := [q.v0 * 4 + q.h1, q.l1 * 16 + q.h2];
  }

  lemma ScanDecodesShort(out: seq<byte>, text: seq<byte>) returns (h: seq<byte>)
    requires 8 * |out| + 6 * |text| <= 8 * HASH_SIZE + 2 && 0 < |text| < 4
    requires forall i :: 0 <= i < |text| ==> Base64UrlValue(text[i]) >= 0
    requires var r := Scan(State(0, 0, out), text); r.Some? && r.value.acc == 0 && r.value.bits < 6
    ensures Scan(State(0, 0, out), text).value.out == out + h && text == Encode(h)
  {
    var q := CutText(text);
    if |text| == 1 {
      NextFirst(q.v0, out);
      ScanOne(State(0, 0, out), q.v0, text);
      assert false;
    } else if |text| == 2 {
      h := ScanDecodesTwo(out, q, text);
    } else {
      h := ScanDecodesThree(out, q, text);
    }
  }

  /** text starts with the characters of the three bytes in first. */
  ghost predicate GroupText(text: seq<byte>, first: seq<byte>) {
    |text| >= 4 && |first| == 3 && text[..4] == CutBytes(first[0], first[1], first[2]).Text()
  }

  lemma EncodeGroup(text: seq<byte>, first: seq<byte>, h: seq<byte>)
    requires GroupText(text, first) && text[4..] == Encode(h)
    ensures text == Encode(first + h)
  {
    assert (first + h)[3..] == h && text == text[..4] + text[4..];
  }

  lemma TakeGroup(out: seq<byte>, text: seq<byte>) returns (first: seq<byte>)
    requires |text| >= 4 && |out| + 2 < HASH_SIZE
    requires forall i :: 0 <= i < 4 ==> Base64UrlValue(text[i]) >= 0
    ensures GroupText(text, first)
    ensures Scan(State(0, 0, out), text) == Scan(State(0, 0, out + first), text[4..])
  {
    var q := CutText(text);
    first := [q.v0 * 4 + q.h1, q.l1 * 16 + q.h2, q.l2 * 64 + q.v3];
    SpellsIff(text, q);
    ScanGroup(out, q, text);
  }

  /** The text a scan came from, when nothing but zero pad bits is left. */
  lemma {:induction false} ScanDecodes(out: seq<byte>, text: seq<byte>) returns (h: seq<byte>)
    requires 8 * |out| + 6 * |text| <= 8 * HASH_SIZE + 2
    requires var r := Scan(State(0, 0, out), text); r.Some? && r.value.acc == 0 && r.value.bits < 6
    ensures Scan(State(0, 0, out), text).value.out == out + h && text == Encode(h)
    decreases |text|
  {
    ScanBounds(State(0, 0, out), text);
    if |text| == 0 {
      h := [];
    } else if |text| < 4 {
      h := ScanDecodesShort(out, text);
    } else {
      var first := TakeGroup(out, text);
      var more := ScanDecodes(out + first, text[4..]);
      EncodeGroup(text, first, more);
      h := first + more;
      assert out + first + more == out + h;
    }
  }

  /** The scan of 43 characters ends with an empty accumulator and hash h exactly on the
      text of h. */
  lemma ScanIff(text: seq<byte>, h: seq<byte>)
    requires |text| == B64_SIZE && |h| == HASH_SIZE
    ensures text == Encode(h)
       <==> var r := Scan(State(0, 0, []), text); r.Some? && r.value.acc == 0 && r.value.out == h
  {
    SmallPowers();
    ScanBounds(State(0, 0, []), text);
    var r := Scan(State(0, 0, []), text);
    if text == Encode(h) {
      ScanEncode([], h);
      assert [] + h == h;
    }
    if r.Some? && r.value.acc == 0 && r.value.out == h {
      var g := ScanDecodes([], text);
      assert [] + g == g;
    }
  }

  /** At most one hash has a given text. */
  lemma EncodeInjective(g: seq<byte>, h: seq<byte>)
    requires |g| == |h| == HASH_SIZE && Encode(g) == Encode(h)
    ensures g == h
  {
    EncodeLength(g);
    ScanIff(Encode(g), g);
    ScanIff(Encode(g), h);
  }

  lemma ArtifactParts(field: seq<byte>, h: seq<byte>)
    requires |field| == RESULT_DATA_SIZE && |h| == HASH_SIZE
    ensures field[..PREFIX_SIZE + B64_SIZE + 1] == ArtifactText(h)
       <==> field[..PREFIX_SIZE] == PREFIX && field[PREFIX_SIZE..PREFIX_SIZE + B64_SIZE] == Encode(h)
            && field[PREFIX_SIZE + B64_SIZE] == 0
  {
    EncodeLength(h);
    PrefixParts(field, Encode(h));
  }

  lemma PrefixParts(s: seq<byte>, e: seq<byte>)
    requires |s| == RESULT_DATA_SIZE && |e| == B64_SIZE
    ensures s[..PREFIX_SIZE + B64_SIZE + 1] == PREFIX + e + [0]
       <==> s[..PREFIX_SIZE] == PREFIX && s[PREFIX_SIZE..PREFIX_SIZE + B64_SIZE] == e
            && s[PREFIX_SIZE + B64_SIZE] == 0
  {
    ThreeParts(s, PREFIX, e);
  }

  lemma ThreeParts(s: seq<byte>, p: seq<byte>, e: seq<byte>)
    requires |s| > |p| + |e|
    ensures s[..|p| + |e| + 1] == p + e + [0]
       <==> s[..|p|] == p && s[|p|..|p| + |e|] == e && s[|p| + |e|] == 0
  {
    var n := |p| + |e|;
    var x := p + e + [0];
    var t := s[..n + 1];
    assert x[..|p|] == p && x[|p|..n] == e && x[n] == 0;
    assert t == t[..|p|] + t[|p|..n] + [t[n]];
    assert t[..|p|] == s[..|p|] && t[|p|..n] == s[|p|..n] && t[n] == s[n];
  }

  lemma ArtifactTextLength(h: seq<byte>)
    requires |h| == HASH_SIZE
    ensures |ArtifactText(h)| == PREFIX_SIZE + B64_SIZE + 1
  {
    EncodeLength(h);
  }

  /** The text up to the first NUL has 59 characters when the field is an artifact. */
  lemma ArtifactLength(field: seq<byte>, h: seq<byte>, n: nat)
    requires |field| == RESULT_DATA_SIZE && |h| == HASH_SIZE && n <= RESULT_DATA_SIZE
    requires field[..PREFIX_SIZE + B64_SIZE + 1] == ArtifactText(h)
    requires n < RESULT_DATA_SIZE ==> field[n] == 0
    requires forall i :: 0 <= i < n ==> field[i] != 0
    ensures n == PREFIX_SIZE + B64_SIZE
  {
    var x := ArtifactText(h);
    EncodeLength(h);
    assert |x| == PREFIX_SIZE + B64_SIZE + 1 && field[..|x|] == x;
    assert forall i :: 0 <= i < |x| ==> x[i] == field[i];
    assert field[PREFIX_SIZE + B64_SIZE] == 0;
    assert forall i :: 0 <= i < PREFIX_SIZE ==> x[i] == PREFIX[i] != 0;
    assert forall i :: PREFIX_SIZE <= i < PREFIX_SIZE + B64_SIZE ==> x[i] == Encode(h)[i - PREFIX_SIZE];
    assert forall i :: 0 <= i < PREFIX_SIZE + B64_SIZE ==> field[i] != 0;
  }

  // ---------- the method ----------

  /** memcmp against a constant at the start of a field, and the text up to the first NUL. */
  method TextLength(field: seq<byte>) returns (n: nat)
    requires |field| == RESULT_DATA_SIZE
    ensures n <= RESULT_DATA_SIZE && (n < RESULT_DATA_SIZE ==> field[n] == 0)
    ensures forall i :: 0 <= i < n ==> field[i] != 0
  {
    n := 0;
    while n < RESULT_DATA_SIZE && field[n] != 0
      invariant n <= RESULT_DATA_SIZE && forall i :: 0 <= i < n ==> field[i] != 0
    {
      n := n + 1;
    }
  }

  lemma DrainStep(acc: u32, b: nat, out: seq<byte>)
    requires b + 8 < 0x100
    ensures |out| >= HASH_SIZE ==> Drain(State(acc, b + 8, out)).None?
    ensures |out| < HASH_SIZE ==>
              Drain(State(acc, b + 8, out)) == Drain(State(LowBits(acc, b), b, out + [ShiftRight(acc, b) % 0x100]))
  {
  }

  lemma Appended(output: array<byte>, n: nat, out: seq<byte>, x: byte)
    requires n < output.Length && |out| == n && output[..n] == out && output[n] == x
    ensures output[..n + 1] == out + [x]
  {
  }

  /** The inner loop. The decoder state is what st says. */
  method EmitBytes(acc0: u32, bits0: byte, output: array<byte>, n0: nat, ghost st: State)
      returns (ok: bool, acc: u32, bits: byte, n: nat)
    requires output.Length == HASH_SIZE && n0 <= HASH_SIZE && st == State(acc0, bits0, output[..n0])
    modifies output
    ensures ok <==> Drain(st).Some?
    ensures ok ==> n <= HASH_SIZE && bits < 8 && Drain(st) == Some(State(acc, bits, output[..n]))
  {
    acc, bits, n := acc0, bits0, n0;
    ghost var out := st.out;
    while bits >= 8
      invariant |out| == n <= HASH_SIZE && output[..n] == out
      invariant Drain(State(acc, bits, out)) == Drain(st)
      decreases bits
    {
      bits := bits - 8;
      DrainStep(acc, bits, out);
      if n >= HASH_SIZE {
        return false, acc, bits, n;
      }
      ghost var x := ShiftRight(acc, bits) % 0x100;
      output[n] := ShiftRight(acc, bits) % 0x100;
      Appended(output, n, out, x);
      n := n + 1;
      out := out + [x];
      acc := LowBits(acc, bits);
    }
    ok := true;
  }

  lemma ScanAt(st: State, text: seq<byte>, i: nat)
    requires st.bits < 8 && i < |text|
    ensures var d := Consume(st, text[i]);
            Scan(st, text[i..]) == if d.None? then None else Scan(d.value, text[i + 1..])
  {
    assert text[i..][0] == text[i] && text[i..][1..] == text[i + 1..];
  }

  /** The body of the loop over the characters. */
  method TakeCharacter(c: byte, acc0: u32, bits0: byte, output: array<byte>, n0: nat, ghost st: State)
      returns (ok: bool, acc: u32, bits: byte, n: nat)
    requires output.Length == HASH_SIZE && n0 <= HASH_SIZE && bits0 < 8 && st == State(acc0, bits0, output[..n0])
    modifies output
    ensures ok <==> Consume(st, c).Some?
    ensures ok ==> n <= HASH_SIZE && bits < 8 && Consume(st, c) == Some(State(acc, bits, output[..n]))
  {
    var value := Base64UrlValue(c);
    if value < 0 {
      return false, acc0, bits0, n0;
    }
    ok, acc, bits, n := EmitBytes(Wrap32(acc0 * 64) + value, bits0 + 6, output, n0,
                                  State(Wrap32(acc0 * 64) + value, bits0 + 6, output[..n0]));
  }

  /** The loop over the characters. */
  method ScanText(text: seq<byte>, output: array<byte>) returns (ok: bool, acc: u32, n: nat, ghost st: State)
    requires output.Length == HASH_SIZE
    modifies output
    ensures st.bits < 8
    ensures ok ==> Scan(State(0, 0, []), text) == Some(st) && n <= HASH_SIZE && st.out == output[..n] && st.acc == acc
    ensures !ok ==> Scan(State(0, 0, []), text).None?
  {
    var bits: byte := 0;
    acc, n, ok := 0, 0, true;
    st := State(0, 0, []);
    assert text[0..] == text;
    for i := 0 to |text|
      invariant ok && bits < 8 && n <= HASH_SIZE && st == State(acc, bits, output[..n])
      invariant Scan(State(0, 0, []), text) == Scan(st, text[i..])
    {
      ScanAt(st, text, i);
      ok, acc, bits, n := TakeCharacter(text[i], acc, bits, output, n, st);
      if !ok { return; }
      st := State(acc, bits, output[..n]);
    }
  }

  /** decode_artifact_result_hash: true exactly when the field starts with the artifact
      text of some hash, and that hash is what is left in the output. */
  method DecodeArtifactResultHash(field: seq<byte>, output: array<byte>) returns (ok: bool)
    requires |field| == RESULT_DATA_SIZE && output.Length == HASH_SIZE
    modifies output
    ensures ok ==> field[..PREFIX_SIZE + B64_SIZE + 1] == ArtifactText(output[..])
    ensures !ok ==> forall h :: |h| == HASH_SIZE ==> field[..PREFIX_SIZE + B64_SIZE + 1] != ArtifactText(h)
  {
    forall h | |h| == HASH_SIZE
      ensures field[..PREFIX_SIZE + B64_SIZE + 1] == ArtifactText(h)
         <==> field[..PREFIX_SIZE] == PREFIX && field[PREFIX_SIZE..PREFIX_SIZE + B64_SIZE] == Encode(h)
              && field[PREFIX_SIZE + B64_SIZE] == 0
    {
      ArtifactParts(field, h);
    }
    if field[..PREFIX_SIZE] != PREFIX {
      return false;
    }
    var length := TextLength(field);
    if length != PREFIX_SIZE + B64_SIZE {
      forall h | |h| == HASH_SIZE ensures field[..PREFIX_SIZE + B64_SIZE + 1] != ArtifactText(h) {
        if field[..PREFIX_SIZE + B64_SIZE + 1] == ArtifactText(h) {
          ArtifactLength(field, h, length);
        }
      }
      return false;
    }
    var acc, n;
    ghost var st;
    ok, acc, n, st := ScanText(field[PREFIX_SIZE..length], output);
    ok := ok && n == HASH_SIZE && acc == 0;
    assert output[..HASH_SIZE] == output[..];
    forall h | |h| == HASH_SIZE
      ensures field[PREFIX_SIZE..length] == Encode(h) <==> ok && output[..] == h
    {
      ScanIff(field[PREFIX_SIZE..length], h);
    }
  }

  /** The prefix and the alphabet as texts. */
  lemma PrefixIs()
    ensures RESULT_DATA_SIZE == 64 && PREFIX_SIZE == 16 && B64_SIZE == 43
    ensures |PREFIX| == 16 && forall i :: 0 <= i < 16 ==> PREFIX[i] == "artifact:sha256:"[i] as int
  {
  }

  /** The alphabet runs from A to Z, from a to z and from 0 to 9, and ends with - and _. */
  lemma AlphabetIs(v: nat)
    ensures Character(0) == 'A' as int && Character(25) == 'Z' as int && Character(26) == 'a' as int
    ensures Character(51) == 'z' as int && Character(52) == '0' as int && Character(61) == '9' as int
    ensures Character(62) == '-' as int && Character(63) == '_' as int
    ensures v < 61 && v != 25 && v != 51 ==> Character(v + 1) == Character(v) + 1
  {
  }
}
