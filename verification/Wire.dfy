/** libsol/parser.c: the readers, as functions from the bytes that are left to a value
    and the bytes left after it, and as methods on the Parser cursor. */
module Wire {
  import opened Bytes

  datatype Parsed<+T> = Fail | Done(value: T, rest: seq<byte>) {
    predicate IsFailure() { Fail? }
    function PropagateFailure<U>(): Parsed<U> requires Fail? { Fail }
    function Extract(): (T, seq<byte>) requires Done? { (value, rest) }
  }

  const PUBKEY_SIZE := 32
  const HASH_SIZE := 32
  /** Compact lengths are below 2^21. */
  const LENGTH_LIMIT := 0x20_0000

  datatype PubkeysHeader = PubkeysHeader(
    required: byte, readonlySigned: byte, readonlyUnsigned: byte, pubkeysLength: u16)

  /** Everything before the blockhash. The keys are one block of 32-byte keys. */
  datatype Prefix = Prefix(versioned: bool, version: byte, counts: PubkeysHeader, pubkeys: seq<byte>)

  datatype MessageHeader = MessageHeader(prefix: Prefix, blockhash: seq<byte>, instructionsLength: nat)

  datatype Instruction = Instruction(programIdIndex: byte, accounts: seq<byte>, data: seq<byte>)

  /** The i-th key of a block of keys. */
  function KeyAt(keys: seq<byte>, i: nat): (k: seq<byte>)
    requires PUBKEY_SIZE * i + PUBKEY_SIZE <= |keys|
    ensures |k| == PUBKEY_SIZE
  {
    keys[PUBKEY_SIZE * i..PUBKEY_SIZE * i + PUBKEY_SIZE]
  }

  // ---------- readers ----------

  function ReadU8(s: seq<byte>): Parsed<byte> {
    if |s| < 1 then Fail else Done(s[0], s[1..])
  }

  function ReadU16(s: seq<byte>): Parsed<u16> {
    var (lower, s1) :- ReadU8(s);
    var (upper, s2) :- ReadU8(s1);
    Done(lower + upper * 0x100, s2)
  }

  function ReadU32(s: seq<byte>): Parsed<u32> {
    var (lower, s1) :- ReadU16(s);
    var (upper, s2) :- ReadU16(s1);
    Done(lower + upper * 0x1_0000, s2)
  }

  function ReadU64(s: seq<byte>): Parsed<u64> {
    var (lower, s1) :- ReadU32(s);
    var (upper, s2) :- ReadU32(s1);
    Done(lower + upper * 0x1_0000_0000, s2)
  }

  function ReadFixed(s: seq<byte>, n: nat): Parsed<seq<byte>> {
    if |s| < n then Fail else Done(s[..n], s[n..])
  }

  /** Seven bits per byte, least significant first, at most three bytes; the top bit of
      the third is ignored. */
  function ReadLength(s: seq<byte>): Parsed<nat> {
    var (a, s1) :- ReadU8(s);
    if a < 0x80 then Done(a, s1)
    else
      var (b, s2) :- ReadU8(s1);
      if b < 0x80 then Done(b * 0x80 + a % 0x80, s2)
      else
        var (c, s3) :- ReadU8(s2);
        Done(c % 0x80 * 0x4000 + b % 0x80 * 0x80 + a % 0x80, s3)
  }

  function ReadPubkeysHeader(s: seq<byte>): Parsed<PubkeysHeader> {
    var (r, s1) :- ReadU8(s);
    var (rs, s2) :- ReadU8(s1);
    var (ru, s3) :- ReadU8(s2);
    var (n, s4) :- ReadLength(s3);
    if n > 0xFFFF then Fail else Done(PubkeysHeader(r, rs, ru, n), s4)
  }

  /** The version byte, present when its top bit is set. */
  function ReadVersion(s: seq<byte>): Parsed<(bool, byte)> {
    if |s| < 1 then Fail
    else if s[0] >= 0x80 then Done((true, s[0] % 0x80), s[1..])
    else Done((false, 0), s)
  }

  predicate CountsConsistent(c: PubkeysHeader) {
    && c.required <= c.pubkeysLength && c.readonlySigned <= c.required
    && c.readonlyUnsigned <= c.pubkeysLength - c.required
  }

  /** The counts, their consistency checks, and the keys. */
  function ReadKeys(s: seq<byte>): Parsed<(PubkeysHeader, seq<byte>)> {
    var (c, s1) :- ReadPubkeysHeader(s);
    if !CountsConsistent(c) then Fail
    else
      var (keys, s2) :- ReadFixed(s1, c.pubkeysLength * PUBKEY_SIZE);
      Done((c, keys), s2)
  }

  function ReadPrefix(s: seq<byte>): Parsed<Prefix> {
    var (v, s1) :- ReadVersion(s);
    var (k, s2) :- ReadKeys(s1);
    Done(Prefix(v.0, v.1, k.0, k.1), s2)
  }

  function ReadHeader(s: seq<byte>): Parsed<MessageHeader> {
    var (p, s1) :- ReadPrefix(s);
    var (hash, s2) :- ReadFixed(s1, HASH_SIZE);
    var (n, s3) :- ReadLength(s2);
    Done(MessageHeader(p, hash, n), s3)
  }

  function ReadData(s: seq<byte>): Parsed<seq<byte>> {
    var (n, s1) :- ReadLength(s);
    ReadFixed(s1, n)
  }

  function ReadInstruction(s: seq<byte>): Parsed<Instruction> {
    var (p, s1) :- ReadU8(s);
    var (accounts, s2) :- ReadData(s1);
    var (data, s3) :- ReadData(s2);
    Done(Instruction(p, accounts, data), s3)
  }

  /** One value, and the ones after it. */
  function Attach<T>(x: T, more: Parsed<seq<T>>): Parsed<seq<T>> {
    match more
    case Fail => Fail
    case Done(xs, s) => Done([x] + xs, s)
  }

  function ReadMany<T>(read: seq<byte> -> Parsed<T>, s: seq<byte>, n: nat): (r: Parsed<seq<T>>)
    ensures r.Done? ==> |r.value| == n
    decreases n
  {
    if n == 0 then Done([], s)
    else
      match read(s)
      case Fail => Fail
      case Done(x, s1) => Attach(x, ReadMany(read, s1, n - 1))
  }

  lemma {:induction false} ReadManyStep<T>(read: seq<byte> -> Parsed<T>, s: seq<byte>, n: nat, left: nat)
    requires n > 0 && left == n - 1
    ensures ReadMany(read, s, n) ==
              if read(s).Fail? then Fail else Attach(read(s).value, ReadMany(read, read(s).rest, left))
  {
  }

  function ReadInstructions(s: seq<byte>, n: nat): (r: Parsed<seq<Instruction>>)
    ensures r.Done? ==> |r.value| == n
  {
    ReadMany(ReadInstruction, s, n)
  }

  // ---------- the serialized form ----------

  function LengthBytes(n: nat): seq<byte>
    requires n < LENGTH_LIMIT
  {
    if n < 0x80 then [n]
    else if n < 0x4000 then [0x80 + n % 0x80, n / 0x80]
    else [0x80 + n % 0x80, 0x80 + n / 0x80 % 0x80, n / 0x4000]
  }

  function VersionBytes(versioned: bool, version: byte): seq<byte>
    requires version < 0x80
  {
    if versioned then [0x80 + version] else []
  }

  ghost predicate ValidPrefix(p: Prefix) {
    && p.version < 0x80 && (!p.versioned ==> p.version == 0 && p.counts.required < 0x80)
    && CountsConsistent(p.counts) && |p.pubkeys| == p.counts.pubkeysLength * PUBKEY_SIZE
  }

  ghost predicate ValidHeader(h: MessageHeader) {
    ValidPrefix(h.prefix) && |h.blockhash| == HASH_SIZE && h.instructionsLength < LENGTH_LIMIT
  }

  function PrefixBytes(p: Prefix): seq<byte>
    requires p.version < 0x80
  {
    VersionBytes(p.versioned, p.version)
      + ([p.counts.required, p.counts.readonlySigned, p.counts.readonlyUnsigned]
         + (LengthBytes(p.counts.pubkeysLength) + p.pubkeys))
  }

  function HeaderBytes(h: MessageHeader): seq<byte>
    requires h.prefix.version < 0x80 && h.instructionsLength < LENGTH_LIMIT
  {
    PrefixBytes(h.prefix) + (h.blockhash + LengthBytes(h.instructionsLength))
  }

  ghost predicate ValidInstruction(i: Instruction) {
    |i.accounts| < LENGTH_LIMIT && |i.data| < LENGTH_LIMIT
  }

  function DataBytes(d: seq<byte>): seq<byte>
    requires |d| < LENGTH_LIMIT
  {
    LengthBytes(|d|) + d
  }

  function InstructionBytes(i: Instruction): seq<byte>
    requires |i.accounts| < LENGTH_LIMIT && |i.data| < LENGTH_LIMIT
  {
    [i.programIdIndex] + (DataBytes(i.accounts) + DataBytes(i.data))
  }

  ghost predicate ValidInstructions(ins: seq<Instruction>) {
    forall k :: 0 <= k < |ins| ==> ValidInstruction(ins[k])
  }

  function InstructionsBytes(ins: seq<Instruction>): seq<byte>
    requires ValidInstructions(ins)
  {
    if |ins| == 0 then [] else InstructionBytes(ins[0]) + InstructionsBytes(ins[1..])
  }

  // ---------- round trip ----------

  lemma LengthRoundTrip(n: nat, t: seq<byte>)
    requires n < LENGTH_LIMIT
    ensures ReadLength(LengthBytes(n) + t) == Done(n, t)
  {
    var s := LengthBytes(n) + t;
    if n < 0x80 {
      assert s[1..] == t;
    } else if n < 0x4000 {
      assert s[1..][1..] == t;
    } else {
      assert s[1..][1..][1..] == t;
      assert n / 0x4000 == n / 0x80 / 0x80;
    }
  }

  lemma FixedRoundTrip(d: seq<byte>, t: seq<byte>)
    ensures ReadFixed(d + t, |d|) == Done(d, t)
  {
    assert (d + t)[..|d|] == d && (d + t)[|d|..] == t;
  }

  lemma CountsRoundTrip(c: PubkeysHeader, t: seq<byte>)
    ensures ReadPubkeysHeader([c.required, c.readonlySigned, c.readonlyUnsigned]
                              + (LengthBytes(c.pubkeysLength) + t)) == Done(c, t)
  {
    var u := LengthBytes(c.pubkeysLength) + t;
    var s := [c.required, c.readonlySigned, c.readonlyUnsigned] + u;
    assert s[1..][1..][1..] == u;
    LengthRoundTrip(c.pubkeysLength, t);
  }

  lemma VersionRoundTrip(versioned: bool, version: byte, t: seq<byte>)
    requires version < 0x80 && |t| > 0 && (!versioned ==> version == 0 && t[0] < 0x80)
    ensures ReadVersion(VersionBytes(versioned, version) + t) == Done((versioned, version), t)
  {
    if versioned {
      assert ([0x80 + version] + t)[1..] == t;
    } else {
      assert [] + t == t;
    }
  }

  lemma PrefixRoundTrip(p: Prefix, t: seq<byte>)
    requires ValidPrefix(p)
    ensures ReadPrefix(PrefixBytes(p) + t) == Done(p, t)
  {
    var c := p.counts;
    var three := [c.required, c.readonlySigned, c.readonlyUnsigned];
    var keys := p.pubkeys + t;
    var body := three + (LengthBytes(c.pubkeysLength) + keys);
    Assoc(LengthBytes(c.pubkeysLength), p.pubkeys, t);
    Assoc(three, LengthBytes(c.pubkeysLength) + p.pubkeys, t);
    Assoc(VersionBytes(p.versioned, p.version), three + (LengthBytes(c.pubkeysLength) + p.pubkeys), t);
    assert PrefixBytes(p) + t == VersionBytes(p.versioned, p.version) + body;
    VersionRoundTrip(p.versioned, p.version, body);
    CountsRoundTrip(c, keys);
    FixedRoundTrip(p.pubkeys, t);
  }

  lemma HeaderRoundTrip(h: MessageHeader, t: seq<byte>)
    requires ValidHeader(h)
    ensures ReadHeader(HeaderBytes(h) + t) == Done(h, t)
  {
    var tail := LengthBytes(h.instructionsLength) + t;
    Assoc(h.blockhash, LengthBytes(h.instructionsLength), t);
    Assoc(PrefixBytes(h.prefix), h.blockhash + LengthBytes(h.instructionsLength), t);
    PrefixRoundTrip(h.prefix, h.blockhash + tail);
    FixedRoundTrip(h.blockhash, tail);
    LengthRoundTrip(h.instructionsLength, t);
  }

  lemma DataRoundTrip(d: seq<byte>, t: seq<byte>)
    requires |d| < LENGTH_LIMIT
    ensures ReadData(DataBytes(d) + t) == Done(d, t)
  {
    Assoc(LengthBytes(|d|), d, t);
    LengthRoundTrip(|d|, d + t);
    FixedRoundTrip(d, t);
  }

  lemma InstructionRoundTrip(i: Instruction, t: seq<byte>)
    requires ValidInstruction(i)
    ensures ReadInstruction(InstructionBytes(i) + t) == Done(i, t)
  {
    var s := InstructionBytes(i) + t;
    Assoc(DataBytes(i.accounts), DataBytes(i.data), t);
    assert s[1..] == DataBytes(i.accounts) + (DataBytes(i.data) + t);
    DataRoundTrip(i.accounts, DataBytes(i.data) + t);
    DataRoundTrip(i.data, t);
  }

  lemma InstructionsStep(s: seq<byte>, n: nat, i: Instruction, s1: seq<byte>, ins: seq<Instruction>, t: seq<byte>)
    requires n > 0 && ReadInstruction(s) == Done(i, s1) && ReadInstructions(s1, n - 1) == Done(ins, t)
    ensures ReadInstructions(s, n) == Done([i] + ins, t)
  {
  }

  lemma {:induction false} InstructionsRoundTrip(ins: seq<Instruction>, t: seq<byte>)
    requires ValidInstructions(ins)
    ensures ReadInstructions(InstructionsBytes(ins) + t, |ins|) == Done(ins, t)
  {
    if |ins| == 0 {
      assert [] + t == t;
    } else {
      var rest := InstructionsBytes(ins[1..]) + t;
      Assoc(InstructionBytes(ins[0]), InstructionsBytes(ins[1..]), t);
      InstructionRoundTrip(ins[0], rest);
      InstructionsRoundTrip(ins[1..], t);
      InstructionsStep(InstructionBytes(ins[0]) + rest, |ins|, ins[0], rest, ins[1..], t);
      assert ins == [ins[0]] + ins[1..];
    }
  }

  /** Wire round trip: header and instructions come back, and exactly their bytes are
      consumed whatever follows. */
  lemma MessageRoundTrip(h: MessageHeader, ins: seq<Instruction>, t: seq<byte>)
    requires ValidHeader(h) && ValidInstructions(ins) && h.instructionsLength == |ins|
    ensures var r := ReadHeader(HeaderBytes(h) + (InstructionsBytes(ins) + t));
            r.Done? && r.value == h && ReadInstructions(r.rest, h.instructionsLength) == Done(ins, t)
  {
    HeaderRoundTrip(h, InstructionsBytes(ins) + t);
    InstructionsRoundTrip(ins, t);
  }

  /** The bytes a compact length was read from. */
  ghost predicate Minimal(s: seq<byte>) {
    && |s| >= 1
    && (s[0] >= 0x80 ==> |s| >= 2 && s[1] != 0 && (s[1] >= 0x80 ==> |s| >= 3 && 0 < s[2] < 0x80))
  }

  /** A compact length has other encodings than the shortest one, and the reader takes
      them all; it was the shortest exactly when the last byte read is 1 to 127, or is
      the only one. */
  lemma LengthShortestIff(s: seq<byte>)
    requires ReadLength(s).Done?
    ensures ReadLength(s).value < LENGTH_LIMIT
    ensures s == LengthBytes(ReadLength(s).value) + ReadLength(s).rest <==> Minimal(s)
  {
    var r := ReadLength(s);
    if s[0] < 0x80 {
      assert s == [s[0]] + s[1..];
    } else if s[1] < 0x80 {
      assert r.rest == s[2..] && s == [s[0], s[1]] + s[2..];
      assert r.value / 0x80 == s[1] && r.value % 0x80 == s[0] % 0x80;
    } else {
      assert r.rest == s[3..] && s == [s[0], s[1], s[2]] + s[3..];
      LengthDigits(r.value, s[0] % 0x80, s[1] % 0x80, s[2] % 0x80);
    }
  }

  /** Two other encodings of zero. */
  lemma LongZeros(t: seq<byte>)
    ensures ReadLength([0x80, 0x00] + t) == Done(0, t) && !Minimal([0x80, 0x00] + t)
    ensures ReadLength([0x80, 0x80, 0x80] + t) == Done(0, t) && !Minimal([0x80, 0x80, 0x80] + t)
  {
    assert ([0x80, 0x00] + t)[1..][1..] == t;
    assert ([0x80, 0x80, 0x80] + t)[1..][1..][1..] == t;
  }

  lemma LengthDigits(n: nat, a: nat, b: nat, c: nat)
    requires a < 0x80 && b < 0x80 && c < 0x80 && n == c * 0x4000 + b * 0x80 + a
    ensures n % 0x80 == a && n / 0x80 % 0x80 == b && n / 0x4000 == c
  {
    assert n / 0x80 == c * 0x80 + b;
  }

  lemma U16Iff(s: seq<byte>, n: u16, t: seq<byte>)
    ensures ReadU16(s) == Done(n, t) <==> s == [n % 0x100, n / 0x100] + t
  {
    if |s| >= 2 {
      assert s == [s[0], s[1]] + s[2..] && s[1..][1..] == s[2..];
    }
    var x := [n % 0x100, n / 0x100] + t;
    assert x[1..][1..] == t;
  }

  // ---------- the readers in bytes ----------

  lemma U16InBytes(s: seq<byte>)
    ensures ReadU16(s) == if |s| < 2 then Fail else Done(s[0] as int + s[1] as int * 0x100, s[2..])
  {
    if |s| >= 2 { assert s[1..][1..] == s[2..]; }
  }

  /** The number with these bytes, the least significant first. */
  function LeastFirst(a: int, b: int, c: int, d: int): int { a + 0x100 * b + 0x1_0000 * c + 0x100_0000 * d }

  lemma U32InBytes(s: seq<byte>)
    ensures ReadU32(s) == if |s| < 4 then Fail else Done(LeastFirst(s[0], s[1], s[2], s[3]), s[4..])
  {
    U16InBytes(s);
    if |s| >= 2 { U16InBytes(s[2..]); }
    if |s| >= 4 { assert s[2..][2..] == s[4..]; }
  }

  lemma U64InBytes(s: seq<byte>)
    ensures ReadU64(s) == if |s| < 8 then Fail
                          else Done(LeastFirst(s[0], s[1], s[2], s[3])
                                    + 0x1_0000_0000 * LeastFirst(s[4], s[5], s[6], s[7]), s[8..])
  {
    U32InBytes(s);
    if |s| >= 4 { U32InBytes(s[4..]); }
    if |s| >= 8 { assert s[4..][4..] == s[8..]; }
  }

  /** How many bytes a length takes, and its value. */
  lemma LengthInBytes(s: seq<byte>)
    ensures |s| == 0 ==> ReadLength(s).Fail?
    ensures |s| >= 1 && s[0] < 0x80 ==> ReadLength(s) == Done(s[0], s[1..])
    ensures |s| == 1 && s[0] >= 0x80 ==> ReadLength(s).Fail?
    ensures |s| >= 2 && s[0] >= 0x80 && s[1] < 0x80 ==>
              var a: int, b: int := s[0], s[1];
              ReadLength(s) == Done(a - 0x80 + 0x80 * b, s[2..])
    ensures |s| == 2 && s[0] >= 0x80 && s[1] >= 0x80 ==> ReadLength(s).Fail?
    ensures |s| >= 3 && s[0] >= 0x80 && s[1] >= 0x80 ==>
              var a: int, b: int, c: int := s[0], s[1], s[2];
              ReadLength(s) == Done(a - 0x80 + 0x80 * (b - 0x80) + 0x4000 * (c % 0x80), s[3..])
  {
    if |s| >= 2 { assert s[1..][1..] == s[2..]; }
    if |s| >= 3 { assert s[2..][1..] == s[3..]; }
  }

  /** The counts and keys are read exactly when the counts fit each other: no more required
      signatures than keys, no more read-only signers than signers, no more read-only
      others than others; and all keys are there. */
  lemma KeysInBytes(s: seq<byte>)
    ensures ReadKeys(s).Done? <==>
              |s| >= 4 && ReadLength(s[3..]).Done?
              && var l := ReadLength(s[3..]);
                 l.value <= 0xFFFF && s[0] <= l.value && s[1] <= s[0] && s[2] <= l.value - s[0]
                 && |l.rest| >= 32 * l.value
    ensures ReadKeys(s).Done? ==>
              var l := ReadLength(s[3..]);
              ReadKeys(s) == Done((PubkeysHeader(s[0], s[1], s[2], l.value), l.rest[..32 * l.value]),
                                  l.rest[32 * l.value..])
  {
    if |s| >= 3 { assert s[1..][1..][1..] == s[3..]; }
  }

  /** The message header: the version byte if its top bit is set, the counts and keys, 32
      bytes of blockhash, and the number of instructions. */
  lemma HeaderInBytes(s: seq<byte>)
    requires |s| > 0
    ensures var versioned := s[0] >= 0x80; var k := ReadKeys(if versioned then s[1..] else s);
            && (ReadHeader(s).Done? <==> k.Done? && |k.rest| >= 32 && ReadLength(k.rest[32..]).Done?)
            && (ReadHeader(s).Done? ==>
                  var l := ReadLength(k.rest[32..]);
                  ReadHeader(s) == Done(MessageHeader(Prefix(versioned, if versioned then s[0] - 0x80 else 0,
                                                             k.value.0, k.value.1),
                                                      k.rest[..32], l.value),
                                        l.rest))
  {
    PrefixInBytes(s);
  }

  lemma {:induction false} PrefixInBytes(s: seq<byte>)
    requires |s| > 0
    ensures var versioned := s[0] >= 0x80; var k := ReadKeys(if versioned then s[1..] else s);
            ReadPrefix(s) == if k.Fail? then Fail
                             else Done(Prefix(versioned, if versioned then s[0] - 0x80 else 0, k.value.0, k.value.1),
                                       k.rest)
  {
  }

  /** An instruction: program index, accounts and data, each with its length before it. */
  lemma InstructionInBytes(s: seq<byte>)
    ensures ReadInstruction(s).Done? <==>
              |s| > 0 && ReadLength(s[1..]).Done?
              && var l := ReadLength(s[1..]);
                 |l.rest| >= l.value && ReadLength(l.rest[l.value..]).Done?
                 && |ReadLength(l.rest[l.value..]).rest| >= ReadLength(l.rest[l.value..]).value
    ensures ReadInstruction(s).Done? ==>
              var l := ReadLength(s[1..]); var m := ReadLength(l.rest[l.value..]);
              ReadInstruction(s) == Done(Instruction(s[0], l.rest[..l.value], m.rest[..m.value]), m.rest[m.value..])
  {
  }

  // ---------- locality ----------

  /** p consumed the bytes before its rest and looked at nothing else. */
  lemma LengthLocal(s: seq<byte>, u: seq<byte>)
    requires ReadLength(s).Done?
    ensures |ReadLength(s).rest| < |s| && s[|s| - |ReadLength(s).rest|..] == ReadLength(s).rest
    ensures ReadLength(s[..|s| - |ReadLength(s).rest|] + u) == Done(ReadLength(s).value, u)
  {
    var r := ReadLength(s);
    var n := |s| - |r.rest|;
    var x := s[..n] + u;
    assert x[0] == s[0];
    if n == 1 {
      assert x[1..] == u;
    } else if n == 2 {
      assert x[1..][1..] == u && x[1..][0] == s[1];
    } else {
      assert x[1..][1..][1..] == u && x[1..][0] == s[1] && x[1..][1..][0] == s[2];
    }
  }
}
