/** The data of the ten AgenC instructions of libsol/agenc_instruction.c: what the
    readers accept is exactly what the serialized form of some fields is. */
module AgencData {
  import opened Bytes
  import opened Wire
  import Artifact

  type i64 = x: int | -0x8000_0000_0000_0000 <= x < 0x8000_0000_0000_0000

  const DISCRIMINATOR_SIZE := 8
  const DESCRIPTION_SIZE := 64

  datatype CreateHead = CreateHead(
    taskId: seq<byte>, capabilities: u64, commitment: seq<byte>, reward: u64, maxWorkers: byte)

  datatype CreateTail = CreateTail(
    deadline: i64, taskType: byte, constraintHash: Option<seq<byte>>, minReputation: u16,
    rewardMint: Option<seq<byte>>)

  datatype Fields =
    | RegisterAgent(agentId: seq<byte>, capabilities: u64, endpoint: seq<byte>,
                    metadataUri: Option<seq<byte>>, stake: u64)
    | CreateTask(head: CreateHead, tail: CreateTail)
    | ConfigureTaskValidation(mode: byte, reviewWindow: i64, quorum: byte, attestor: Option<seq<byte>>)
    | SetTaskJobSpec(jobSpecHash: seq<byte>, jobSpecUri: seq<byte>)
    | ClaimTaskWithJobSpec
    | SubmitTaskResult(proofHash: seq<byte>, resultData: Option<seq<byte>>)
    | AcceptTaskResult
    | RejectTaskResult(rejectionHash: seq<byte>)
    | CancelTask
    | ExpireClaim

  datatype Kind = Register | Create | Configure | SetJobSpec | Claim | Submit | Accept | Reject | Cancel | Expire

  function KindOfFields(f: Fields): Kind {
    match f
    case RegisterAgent(_, _, _, _, _) => Register
    case CreateTask(_, _) => Create
    case ConfigureTaskValidation(_, _, _, _) => Configure
    case SetTaskJobSpec(_, _) => SetJobSpec
    case ClaimTaskWithJobSpec => Claim
    case SubmitTaskResult(_, _) => Submit
    case AcceptTaskResult => Accept
    case RejectTaskResult(_) => Reject
    case CancelTask => Cancel
    case ExpireClaim => Expire
  }

  function Discriminator(k: Kind): (d: seq<byte>)
    ensures |d| == DISCRIMINATOR_SIZE
  {
    match k
    case Register => [0x87, 0x9d, 0x42, 0xc3, 0x02, 0x71, 0xaf, 0x1e]
    case Create => [0xc2, 0x50, 0x06, 0xb4, 0xe8, 0x7f, 0x30, 0xab]
    case Configure => [0x0b, 0x4f, 0x13, 0xbc, 0x0d, 0x20, 0xf4, 0x5a]
    case SetJobSpec => [0x86, 0x66, 0x66, 0x56, 0x1f, 0xa4, 0xca, 0xc1]
    case Claim => [0xe6, 0x28, 0x6b, 0x6d, 0xd0, 0xe4, 0xaf, 0x1f]
    case Submit => [0x27, 0x6c, 0x4a, 0x04, 0x42, 0x7d, 0x9d, 0x07]
    case Accept => [0x59, 0xe6, 0x33, 0x19, 0x00, 0xdb, 0x05, 0x89]
    case Reject => [0x90, 0x07, 0x3a, 0xe8, 0x9d, 0xa7, 0x55, 0xd6]
    case Cancel => [0x45, 0xe4, 0x86, 0xbb, 0x86, 0x69, 0xee, 0x30]
    case Expire => [0xb0, 0x4e, 0xf1, 0x1d, 0x9f, 0x51, 0x1a, 0x06]
  }

  /** The chain of comparisons in parse_agenc_instructions. */
  function KindOf(d: seq<byte>): Option<Kind> {
    if d == Discriminator(Register) then Some(Register)
    else if d == Discriminator(Create) then Some(Create)
    else if d == Discriminator(Configure) then Some(Configure)
    else if d == Discriminator(SetJobSpec) then Some(SetJobSpec)
    else if d == Discriminator(Claim) then Some(Claim)
    else if d == Discriminator(Submit) then Some(Submit)
    else if d == Discriminator(Accept) then Some(Accept)
    else if d == Discriminator(Reject) then Some(Reject)
    else if d == Discriminator(Cancel) then Some(Cancel)
    else if d == Discriminator(Expire) then Some(Expire)
    else None
  }

  function FirstByte(k: Kind): byte {
    match k
    case Register => 0x87
    case Create => 0xc2
    case Configure => 0x0b
    case SetJobSpec => 0x86
    case Claim => 0xe6
    case Submit => 0x27
    case Accept => 0x59
    case Reject => 0x90
    case Cancel => 0x45
    case Expire => 0xb0
  }

  lemma KindIff(d: seq<byte>, k: Kind)
    ensures KindOf(d) == Some(k) <==> d == Discriminator(k)
  {
    assert Discriminator(k)[0] == FirstByte(k);
  }

  // ---------- one field ----------

  /** The two's complement reading of 64 bits. */
  function Signed(n: u64): i64 {
    if n < 0x8000_0000_0000_0000 then n else n - 0x1_0000_0000_0000_0000
  }

  function ReadI64(s: seq<byte>): Parsed<i64> {
    var (n, s1) :- ReadU64(s);
    Done(Signed(n), s1)
  }

  /** parse_borsh_string: a 32-bit length and that many bytes. */
  function ReadText(s: seq<byte>): Parsed<seq<byte>> {
    var (n, s1) :- ReadU32(s);
    ReadFixed(s1, n)
  }

  function ReadOption(s: seq<byte>): Parsed<bool> {
    var (b, s1) :- ReadU8(s);
    if b > 1 then Fail else Done(b == 1, s1)
  }

  function ReadOptionalFixed(s: seq<byte>, n: nat): Parsed<Option<seq<byte>>> {
    var (some, s1) :- ReadOption(s);
    if !some then Done(None, s1)
    else
      var (v, s2) :- ReadFixed(s1, n);
      Done(Some(v), s2)
  }

  function ReadOptionalText(s: seq<byte>): Parsed<Option<seq<byte>>> {
    var (some, s1) :- ReadOption(s);
    if !some then Done(None, s1)
    else
      var (v, s2) :- ReadText(s1);
      Done(Some(v), s2)
  }

  /** A 64-byte description: a digest and a zero tail. */
  function ReadDescription(s: seq<byte>): Parsed<seq<byte>> {
    var (d, s1) :- ReadFixed(s, DESCRIPTION_SIZE);
    if d[HASH_SIZE..] == Zeros(DESCRIPTION_SIZE - HASH_SIZE) then Done(d[..HASH_SIZE], s1) else Fail
  }

  function U16Bytes(n: u16): seq<byte> { [n % 0x100, n / 0x100] }

  function U32Bytes(n: u32): seq<byte> { U16Bytes(n % 0x1_0000) + U16Bytes(n / 0x1_0000) }

  function U64Bytes(n: u64): seq<byte> { U32Bytes(n % 0x1_0000_0000) + U32Bytes(n / 0x1_0000_0000) }

  function I64Bytes(n: i64): seq<byte> { U64Bytes(Wrap64(n)) }

  function TextBytes(t: seq<byte>): seq<byte>
    requires |t| < 0x1_0000_0000
  {
    U32Bytes(|t|) + t
  }

  ghost predicate Fits(o: Option<seq<byte>>, n: nat) { o.Some? ==> |o.value| == n }

  ghost predicate Short(o: Option<seq<byte>>) { o.Some? ==> |o.value| < 0x1_0000_0000 }

  function OptionalBytes(o: Option<seq<byte>>): seq<byte> {
    if o.Some? then [1] + o.value else [0]
  }

  function OptionalTextBytes(o: Option<seq<byte>>): seq<byte>
    requires o.Some? ==> |o.value| < 0x1_0000_0000
  {
    if o.Some? then [1] + TextBytes(o.value) else [0]
  }

  lemma U8Iff(s: seq<byte>, v: byte, t: seq<byte>)
    ensures ReadU8(s) == Done(v, t) <==> s == [v] + t
  {
    if |s| > 0 { assert s == [s[0]] + s[1..]; }
    assert ([v] + t)[1..] == t;
  }

  lemma FixedIff(s: seq<byte>, n: nat, v: seq<byte>, t: seq<byte>)
    ensures ReadFixed(s, n) == Done(v, t) <==> |v| == n && s == v + t
  {
    FixedRoundTrip(v, t);
    if |s| >= n { assert s == s[..n] + s[n..]; }
  }

  lemma Halves16(n: u32, lower: u16, upper: u16)
    ensures n == lower + upper * 0x1_0000 <==> lower == n % 0x1_0000 && upper == n / 0x1_0000
  {
  }

  lemma U32Iff(s: seq<byte>, n: u32, t: seq<byte>)
    ensures ReadU32(s) == Done(n, t) <==> s == U32Bytes(n) + t
  {
    U32IffHalves(s, n, n % 0x1_0000, n / 0x1_0000, t);
  }

  lemma U32IffHalves(s: seq<byte>, n: u32, a: u16, b: u16, t: seq<byte>)
    requires a == n % 0x1_0000 && b == n / 0x1_0000
    ensures ReadU32(s) == Done(n, t) <==> s == U16Bytes(a) + U16Bytes(b) + t
  {
    Assoc(U16Bytes(a), U16Bytes(b), t);
    U16Iff(s, a, U16Bytes(b) + t);
    U16Iff(U16Bytes(b) + t, b, t);
    var lower := ReadU16(s);
    Halves16(n, a, b);
    if lower.Done? {
      var upper := ReadU16(lower.rest);
      if upper.Done? { Halves16(n, lower.value, upper.value); }
      U16Iff(lower.rest, b, t);
    }
  }

  lemma Halves(n: u64, lower: u32, upper: u32)
    ensures n == lower + upper * 0x1_0000_0000 <==> lower == n % 0x1_0000_0000 && upper == n / 0x1_0000_0000
  {
  }

  lemma U64Iff(s: seq<byte>, n: u64, t: seq<byte>)
    ensures ReadU64(s) == Done(n, t) <==> s == U64Bytes(n) + t
  {
    U64IffHalves(s, n, n % 0x1_0000_0000, n / 0x1_0000_0000, t);
  }

  lemma U64IffHalves(s: seq<byte>, n: u64, a: u32, b: u32, t: seq<byte>)
    requires a == n % 0x1_0000_0000 && b == n / 0x1_0000_0000
    ensures ReadU64(s) == Done(n, t) <==> s == U32Bytes(a) + U32Bytes(b) + t
  {
    Assoc(U32Bytes(a), U32Bytes(b), t);
    U32Iff(s, a, U32Bytes(b) + t);
    U32Iff(U32Bytes(b) + t, b, t);
    var lower := ReadU32(s);
    Halves(n, a, b);
    if lower.Done? {
      var upper := ReadU32(lower.rest);
      if upper.Done? { Halves(n, lower.value, upper.value); }
      U32Iff(lower.rest, b, t);
    }
  }

  lemma SignedIff(u: u64, n: i64)
    ensures Signed(u) == n <==> u == Wrap64(n)
  {
  }

  lemma I64Iff(s: seq<byte>, n: i64, t: seq<byte>)
    ensures ReadI64(s) == Done(n, t) <==> s == I64Bytes(n) + t
  {
    I64IffWrapped(s, n, Wrap64(n), t);
  }

  lemma I64IffWrapped(s: seq<byte>, n: i64, u: u64, t: seq<byte>)
    requires u == Wrap64(n)
    ensures ReadI64(s) == Done(n, t) <==> s == U64Bytes(u) + t
  {
    U64Iff(s, u, t);
    var r := ReadU64(s);
    if r.Done? { SignedIff(r.value, n); }
  }

  lemma TextIff(s: seq<byte>, v: seq<byte>, t: seq<byte>)
    ensures ReadText(s) == Done(v, t) <==> |v| < 0x1_0000_0000 && s == TextBytes(v) + t
  {
    var n := ReadU32(s);
    if n.Done? {
      U32Iff(s, n.value, n.rest);
      FixedIff(n.rest, n.value, v, t);
    }
    if |v| < 0x1_0000_0000 {
      Assoc(U32Bytes(|v|), v, t);
      U32Iff(s, |v|, v + t);
      FixedIff(v + t, |v|, v, t);
    }
  }

  lemma OptionIff(s: seq<byte>, some: bool, t: seq<byte>)
    ensures ReadOption(s) == Done(some, t) <==> s == [if some then 1 else 0] + t
  {
    U8Iff(s, if some then 1 else 0, t);
  }

  lemma OptionalFixedIff(s: seq<byte>, n: nat, o: Option<seq<byte>>, t: seq<byte>)
    ensures ReadOptionalFixed(s, n) == Done(o, t) <==> Fits(o, n) && s == OptionalBytes(o) + t
  {
    var tag := ReadOption(s);
    if tag.Done? {
      OptionIff(s, tag.value, tag.rest);
      if o.Some? { FixedIff(tag.rest, n, o.value, t); }
    }
    if o.Some? {
      Assoc([1], o.value, t);
      OptionIff(s, true, o.value + t);
      FixedIff(o.value + t, n, o.value, t);
    } else {
      OptionIff(s, false, t);
    }
  }

  lemma OptionalTextIff(s: seq<byte>, o: Option<seq<byte>>, t: seq<byte>)
    ensures ReadOptionalText(s) == Done(o, t) <==> Short(o) && s == OptionalTextBytes(o) + t
  {
    var tag := ReadOption(s);
    if tag.Done? {
      OptionIff(s, tag.value, tag.rest);
      if o.Some? { TextIff(tag.rest, o.value, t); }
    }
    if o.None? {
      OptionIff(s, false, t);
    } else if |o.value| < 0x1_0000_0000 {
      Assoc([1], TextBytes(o.value), t);
      OptionIff(s, true, TextBytes(o.value) + t);
      TextIff(TextBytes(o.value) + t, o.value, t);
    }
  }

  lemma DescriptionIff(s: seq<byte>, v: seq<byte>, t: seq<byte>)
    ensures ReadDescription(s) == Done(v, t)
       <==> |v| == 32 && s == v + Zeros(32) + t
  {
    var tail := Zeros(DESCRIPTION_SIZE - HASH_SIZE);
    var r := ReadFixed(s, DESCRIPTION_SIZE);
    if r.Done? {
      FixedIff(s, DESCRIPTION_SIZE, r.value, r.rest);
      assert r.value == r.value[..HASH_SIZE] + r.value[HASH_SIZE..];
    }
    if |v| == HASH_SIZE {
      FixedIff(s, DESCRIPTION_SIZE, v + tail, t);
      assert (v + tail)[..HASH_SIZE] == v && (v + tail)[HASH_SIZE..] == tail;
    }
  }

  // ---------- the fields of each kind ----------

  function ReadRegisterAgent(s: seq<byte>): Parsed<Fields> {
    var (id, s1) :- ReadFixed(s, HASH_SIZE);
    var (capabilities, s2) :- ReadU64(s1);
    var (endpoint, s3) :- ReadText(s2);
    var (uri, s4) :- ReadOptionalText(s3);
    var (stake, s5) :- ReadU64(s4);
    Done(RegisterAgent(id, capabilities, endpoint, uri, stake), s5)
  }

  function ReadCreateHead(s: seq<byte>): Parsed<CreateHead> {
    var (id, s1) :- ReadFixed(s, HASH_SIZE);
    var (capabilities, s2) :- ReadU64(s1);
    var (commitment, s3) :- ReadDescription(s2);
    var (reward, s4) :- ReadU64(s3);
    var (workers, s5) :- ReadU8(s4);
    Done(CreateHead(id, capabilities, commitment, reward, workers), s5)
  }

  function ReadCreateTail(s: seq<byte>): Parsed<CreateTail> {
    var (deadline, s1) :- ReadI64(s);
    var (taskType, s2) :- ReadU8(s1);
    var (constraint, s3) :- ReadOptionalFixed(s2, HASH_SIZE);
    var (reputation, s4) :- ReadU16(s3);
    var (mint, s5) :- ReadOptionalFixed(s4, PUBKEY_SIZE);
    Done(CreateTail(deadline, taskType, constraint, reputation, mint), s5)
  }

  function ReadCreateTask(s: seq<byte>): Parsed<Fields> {
    var (head, s1) :- ReadCreateHead(s);
    var (tail, s2) :- ReadCreateTail(s1);
    Done(CreateTask(head, tail), s2)
  }

  function ReadConfigure(s: seq<byte>): Parsed<Fields> {
    var (mode, s1) :- ReadU8(s);
    var (window, s2) :- ReadI64(s1);
    var (quorum, s3) :- ReadU8(s2);
    var (attestor, s4) :- ReadOptionalFixed(s3, PUBKEY_SIZE);
    Done(ConfigureTaskValidation(mode, window, quorum, attestor), s4)
  }

  function ReadSetJobSpec(s: seq<byte>): Parsed<Fields> {
    var (hash, s1) :- ReadFixed(s, HASH_SIZE);
    var (uri, s2) :- ReadText(s1);
    Done(SetTaskJobSpec(hash, uri), s2)
  }

  function ReadSubmit(s: seq<byte>): Parsed<Fields> {
    var (hash, s1) :- ReadFixed(s, HASH_SIZE);
    var (result, s2) :- ReadOptionalFixed(s1, Artifact.RESULT_DATA_SIZE);
    Done(SubmitTaskResult(hash, result), s2)
  }

  function ReadReject(s: seq<byte>): Parsed<Fields> {
    var (hash, s1) :- ReadFixed(s, HASH_SIZE);
    Done(RejectTaskResult(hash), s1)
  }

  // Serialized forms, followed by whatever bytes t come after.

  ghost predicate ValidHead(h: CreateHead) { |h.taskId| == HASH_SIZE && |h.commitment| == HASH_SIZE }

  ghost predicate ValidTail(t: CreateTail) { Fits(t.constraintHash, HASH_SIZE) && Fits(t.rewardMint, PUBKEY_SIZE) }

  ghost predicate ValidFields(f: Fields) {
    match f
    case RegisterAgent(id, _, endpoint, uri, _) => |id| == HASH_SIZE && |endpoint| < 0x1_0000_0000 && Short(uri)
    case CreateTask(head, tail) => ValidHead(head) && ValidTail(tail)
    case ConfigureTaskValidation(_, _, _, attestor) => Fits(attestor, PUBKEY_SIZE)
    case SetTaskJobSpec(hash, uri) => |hash| == HASH_SIZE && |uri| < 0x1_0000_0000
    case SubmitTaskResult(hash, result) => |hash| == HASH_SIZE && Fits(result, Artifact.RESULT_DATA_SIZE)
    case RejectTaskResult(hash) => |hash| == HASH_SIZE
    case _ => true
  }

  function HeadThen(h: CreateHead, t: seq<byte>): seq<byte> {
    h.taskId + (U64Bytes(h.capabilities)
                + (h.commitment + Zeros(DESCRIPTION_SIZE - HASH_SIZE) + (U64Bytes(h.reward) + ([h.maxWorkers] + t))))
  }

  function TailThen(f: CreateTail, t: seq<byte>): seq<byte> {
    I64Bytes(f.deadline) + ([f.taskType]
      + (OptionalBytes(f.constraintHash) + (U16Bytes(f.minReputation) + (OptionalBytes(f.rewardMint) + t))))
  }

  function FieldsThen(f: Fields, t: seq<byte>): seq<byte>
    requires f.RegisterAgent? ==> |f.endpoint| < 0x1_0000_0000
    requires f.RegisterAgent? && f.metadataUri.Some? ==> |f.metadataUri.value| < 0x1_0000_0000
    requires f.SetTaskJobSpec? ==> |f.jobSpecUri| < 0x1_0000_0000
  {
    match f
    case RegisterAgent(id, capabilities, endpoint, uri, stake) =>
      id + (U64Bytes(capabilities) + (TextBytes(endpoint) + (OptionalTextBytes(uri) + (U64Bytes(stake) + t))))
    case CreateTask(head, tail) => HeadThen(head, TailThen(tail, t))
    case ConfigureTaskValidation(mode, window, quorum, attestor) =>
      [mode] + (I64Bytes(window) + ([quorum] + (OptionalBytes(attestor) + t)))
    case SetTaskJobSpec(hash, uri) => hash + (TextBytes(uri) + t)
    case SubmitTaskResult(hash, result) => hash + (OptionalBytes(result) + t)
    case RejectTaskResult(hash) => hash + t
    case _ => t
  }

  lemma RegisterWrites(s: seq<byte>)
    requires ReadRegisterAgent(s).Done?
    ensures var r := ReadRegisterAgent(s); ValidFields(r.value) && s == FieldsThen(r.value, r.rest)
  {
    var r1 := ReadFixed(s, HASH_SIZE);
    var r2 := ReadU64(r1.rest);
    var r3 := ReadText(r2.rest);
    var r4 := ReadOptionalText(r3.rest);
    var r5 := ReadU64(r4.rest);
    FixedIff(s, HASH_SIZE, r1.value, r1.rest);
    U64Iff(r1.rest, r2.value, r2.rest);
    TextIff(r2.rest, r3.value, r3.rest);
    OptionalTextIff(r3.rest, r4.value, r4.rest);
    U64Iff(r4.rest, r5.value, r5.rest);
  }

  lemma RegisterReads(f: Fields, t: seq<byte>)
    requires f.RegisterAgent? && ValidFields(f)
    ensures ReadFields(KindOfFields(f), FieldsThen(f, t)) == Done(f, t)
  {
    var s4 := U64Bytes(f.stake) + t;
    var s3 := OptionalTextBytes(f.metadataUri) + s4;
    var s2 := TextBytes(f.endpoint) + s3;
    var s1 := U64Bytes(f.capabilities) + s2;
    FixedIff(f.agentId + s1, HASH_SIZE, f.agentId, s1);
    U64Iff(s1, f.capabilities, s2);
    TextIff(s2, f.endpoint, s3);
    OptionalTextIff(s3, f.metadataUri, s4);
    U64Iff(s4, f.stake, t);
  }

  lemma HeadWrites(s: seq<byte>)
    requires ReadCreateHead(s).Done?
    ensures var r := ReadCreateHead(s); ValidHead(r.value) && s == HeadThen(r.value, r.rest)
  {
    var r1 := ReadFixed(s, HASH_SIZE);
    var r2 := ReadU64(r1.rest);
    var r3 := ReadDescription(r2.rest);
    var r4 := ReadU64(r3.rest);
    var r5 := ReadU8(r4.rest);
    FixedIff(s, HASH_SIZE, r1.value, r1.rest);
    U64Iff(r1.rest, r2.value, r2.rest);
    DescriptionIff(r2.rest, r3.value, r3.rest);
    U64Iff(r3.rest, r4.value, r4.rest);
    U8Iff(r4.rest, r5.value, r5.rest);
  }

  lemma HeadReads(h: CreateHead, t: seq<byte>)
    requires ValidHead(h)
    ensures ReadCreateHead(HeadThen(h, t)) == Done(h, t)
  {
    var s4 := [h.maxWorkers] + t;
    var s3 := U64Bytes(h.reward) + s4;
    var s2 := h.commitment + Zeros(DESCRIPTION_SIZE - HASH_SIZE) + s3;
    var s1 := U64Bytes(h.capabilities) + s2;
    FixedIff(h.taskId + s1, HASH_SIZE, h.taskId, s1);
    U64Iff(s1, h.capabilities, s2);
    DescriptionIff(s2, h.commitment, s3);
    U64Iff(s3, h.reward, s4);
    U8Iff(s4, h.maxWorkers, t);
  }

  lemma TailWrites(s: seq<byte>)
    requires ReadCreateTail(s).Done?
    ensures var r := ReadCreateTail(s); ValidTail(r.value) && s == TailThen(r.value, r.rest)
  {
    var r1 := ReadI64(s);
    var r2 := ReadU8(r1.rest);
    var r3 := ReadOptionalFixed(r2.rest, HASH_SIZE);
    var r4 := ReadU16(r3.rest);
    var r5 := ReadOptionalFixed(r4.rest, PUBKEY_SIZE);
    I64Iff(s, r1.value, r1.rest);
    U8Iff(r1.rest, r2.value, r2.rest);
    OptionalFixedIff(r2.rest, HASH_SIZE, r3.value, r3.rest);
    U16Iff(r3.rest, r4.value, r4.rest);
    OptionalFixedIff(r4.rest, PUBKEY_SIZE, r5.value, r5.rest);
  }

  lemma TailReads(f: CreateTail, t: seq<byte>)
    requires ValidTail(f)
    ensures ReadCreateTail(TailThen(f, t)) == Done(f, t)
  {
    var s4 := OptionalBytes(f.rewardMint) + t;
    var s3 := U16Bytes(f.minReputation) + s4;
    var s2 := OptionalBytes(f.constraintHash) + s3;
    var s1 := [f.taskType] + s2;
    I64Iff(I64Bytes(f.deadline) + s1, f.deadline, s1);
    U8Iff(s1, f.taskType, s2);
    OptionalFixedIff(s2, HASH_SIZE, f.constraintHash, s3);
    U16Iff(s3, f.minReputation, s4);
    OptionalFixedIff(s4, PUBKEY_SIZE, f.rewardMint, t);
  }

  lemma CreateWrites(s: seq<byte>)
    requires ReadCreateTask(s).Done?
    ensures var r := ReadCreateTask(s); ValidFields(r.value) && s == FieldsThen(r.value, r.rest)
  {
    HeadWrites(s);
    TailWrites(ReadCreateHead(s).rest);
  }

  lemma SetJobSpecWrites(s: seq<byte>)
    requires ReadSetJobSpec(s).Done?
    ensures var r := ReadSetJobSpec(s); ValidFields(r.value) && s == FieldsThen(r.value, r.rest)
  {
    var r1 := ReadFixed(s, HASH_SIZE);
    var r2 := ReadText(r1.rest);
    FixedIff(s, HASH_SIZE, r1.value, r1.rest);
    TextIff(r1.rest, r2.value, r2.rest);
  }

  lemma SubmitWrites(s: seq<byte>)
    requires ReadSubmit(s).Done?
    ensures var r := ReadSubmit(s); ValidFields(r.value) && s == FieldsThen(r.value, r.rest)
  {
    var r1 := ReadFixed(s, HASH_SIZE);
    var r2 := ReadOptionalFixed(r1.rest, Artifact.RESULT_DATA_SIZE);
    FixedIff(s, HASH_SIZE, r1.value, r1.rest);
    OptionalFixedIff(r1.rest, Artifact.RESULT_DATA_SIZE, r2.value, r2.rest);
  }

  lemma ConfigureWrites(s: seq<byte>)
    requires ReadConfigure(s).Done?
    ensures var r := ReadConfigure(s); ValidFields(r.value) && s == FieldsThen(r.value, r.rest)
  {
    var r1 := ReadU8(s);
    var r2 := ReadI64(r1.rest);
    var r3 := ReadU8(r2.rest);
    var r4 := ReadOptionalFixed(r3.rest, PUBKEY_SIZE);
    U8Iff(s, r1.value, r1.rest);
    I64Iff(r1.rest, r2.value, r2.rest);
    U8Iff(r2.rest, r3.value, r3.rest);
    OptionalFixedIff(r3.rest, PUBKEY_SIZE, r4.value, r4.rest);
  }

  lemma ConfigureReads(f: Fields, t: seq<byte>)
    requires f.ConfigureTaskValidation? && ValidFields(f)
    ensures ReadFields(KindOfFields(f), FieldsThen(f, t)) == Done(f, t)
  {
    var s3 := OptionalBytes(f.attestor) + t;
    var s2 := [f.quorum] + s3;
    var s1 := I64Bytes(f.reviewWindow) + s2;
    U8Iff([f.mode] + s1, f.mode, s1);
    I64Iff(s1, f.reviewWindow, s2);
    U8Iff(s2, f.quorum, s3);
    OptionalFixedIff(s3, PUBKEY_SIZE, f.attestor, t);
  }

  lemma CreateReads(f: Fields, t: seq<byte>)
    requires f.CreateTask? && ValidFields(f)
    ensures ReadFields(KindOfFields(f), FieldsThen(f, t)) == Done(f, t)
  {
    HeadReads(f.head, TailThen(f.tail, t));
    TailReads(f.tail, t);
  }

  lemma SetJobSpecReads(f: Fields, t: seq<byte>)
    requires f.SetTaskJobSpec? && ValidFields(f)
    ensures ReadFields(KindOfFields(f), FieldsThen(f, t)) == Done(f, t)
  {
    var s1 := TextBytes(f.jobSpecUri) + t;
    FixedIff(f.jobSpecHash + s1, HASH_SIZE, f.jobSpecHash, s1);
    TextIff(s1, f.jobSpecUri, t);
  }

  lemma SubmitReads(f: Fields, t: seq<byte>)
    requires f.SubmitTaskResult? && ValidFields(f)
    ensures ReadFields(KindOfFields(f), FieldsThen(f, t)) == Done(f, t)
  {
    var s1 := OptionalBytes(f.resultData) + t;
    FixedIff(f.proofHash + s1, HASH_SIZE, f.proofHash, s1);
    OptionalFixedIff(s1, Artifact.RESULT_DATA_SIZE, f.resultData, t);
  }

  lemma OthersRead(f: Fields, t: seq<byte>)
    requires ValidFields(f)
    requires f.ClaimTaskWithJobSpec? || f.AcceptTaskResult? || f.RejectTaskResult? || f.CancelTask? || f.ExpireClaim?
    ensures ReadFields(KindOfFields(f), FieldsThen(f, t)) == Done(f, t)
  {
    if f.RejectTaskResult? {
      FixedIff(f.rejectionHash + t, HASH_SIZE, f.rejectionHash, t);
    }
  }

  // ---------- the instruction data ----------

  function ReadFields(k: Kind, s: seq<byte>): Parsed<Fields> {
    match k
    case Register => ReadRegisterAgent(s)
    case Create => ReadCreateTask(s)
    case Configure => ReadConfigure(s)
    case SetJobSpec => ReadSetJobSpec(s)
    case Claim => Done(ClaimTaskWithJobSpec, s)
    case Submit => ReadSubmit(s)
    case Accept => Done(AcceptTaskResult, s)
    case Reject => ReadReject(s)
    case Cancel => Done(CancelTask, s)
    case Expire => Done(ExpireClaim, s)
  }

  /** Discriminator, fields, and no byte after them. */
  function ReadAgencData(d: seq<byte>): Option<Fields> {
    if |d| < DISCRIMINATOR_SIZE then None
    else
      var k := KindOf(d[..DISCRIMINATOR_SIZE]);
      if k.None? then None
      else
        var r := ReadFields(k.value, d[DISCRIMINATOR_SIZE..]);
        if r.Done? && r.rest == [] then Some(r.value) else None
  }

  function AgencBytes(f: Fields): seq<byte>
    requires f.RegisterAgent? ==> |f.endpoint| < 0x1_0000_0000
    requires f.RegisterAgent? && f.metadataUri.Some? ==> |f.metadataUri.value| < 0x1_0000_0000
    requires f.SetTaskJobSpec? ==> |f.jobSpecUri| < 0x1_0000_0000
  {
    Discriminator(KindOfFields(f)) + FieldsThen(f, [])
  }

  lemma FieldsWrite(k: Kind, s: seq<byte>)
    requires ReadFields(k, s).Done?
    ensures var r := ReadFields(k, s);
            KindOfFields(r.value) == k && ValidFields(r.value) && s == FieldsThen(r.value, r.rest)
  {
    match k
    case Register => RegisterWrites(s);
    case Create => CreateWrites(s);
    case Configure => ConfigureWrites(s);
    case SetJobSpec => SetJobSpecWrites(s);
    case Submit => SubmitWrites(s);
    case Reject =>
      var r := ReadFixed(s, HASH_SIZE);
      FixedIff(s, HASH_SIZE, r.value, r.rest);
    case _ =>
  }

  lemma FieldsRead(f: Fields, t: seq<byte>)
    requires ValidFields(f)
    ensures ReadFields(KindOfFields(f), FieldsThen(f, t)) == Done(f, t)
  {
    match f
    case RegisterAgent(_, _, _, _, _) => RegisterReads(f, t);
    case CreateTask(_, _) => CreateReads(f, t);
    case ConfigureTaskValidation(_, _, _, _) => ConfigureReads(f, t);
    case SetTaskJobSpec(_, _) => SetJobSpecReads(f, t);
    case SubmitTaskResult(_, _) => SubmitReads(f, t);
    case _ => OthersRead(f, t);
  }

  /** Data and fields correspond one to one: the parser accepts d as f exactly when f is
      well formed and d is its serialized form. */
  lemma AgencDataIff(d: seq<byte>, f: Fields)
    ensures ReadAgencData(d) == Some(f) <==> ValidFields(f) && d == AgencBytes(f)
  {
    if ReadAgencData(d) == Some(f) {
      var k := KindOf(d[..DISCRIMINATOR_SIZE]).value;
      KindIff(d[..DISCRIMINATOR_SIZE], k);
      FieldsWrite(k, d[DISCRIMINATOR_SIZE..]);
      assert d == d[..DISCRIMINATOR_SIZE] + d[DISCRIMINATOR_SIZE..];
    }
    if ValidFields(f) && d == AgencBytes(f) {
      var k := KindOfFields(f);
      assert d[..DISCRIMINATOR_SIZE] == Discriminator(k) && d[DISCRIMINATOR_SIZE..] == FieldsThen(f, []);
      KindIff(d[..DISCRIMINATOR_SIZE], k);
      FieldsRead(f, []);
    }
  }

  /** The discriminator that the data of each instruction starts with. */
  lemma DiscriminatorsAre(f: Fields)
    requires ValidFields(f)
    ensures AgencBytes(f)[..8] ==
              match f
              case RegisterAgent(_, _, _, _, _) => [0x87, 0x9d, 0x42, 0xc3, 0x02, 0x71, 0xaf, 0x1e]
              case CreateTask(_, _) => [0xc2, 0x50, 0x06, 0xb4, 0xe8, 0x7f, 0x30, 0xab]
              case ConfigureTaskValidation(_, _, _, _) => [0x0b, 0x4f, 0x13, 0xbc, 0x0d, 0x20, 0xf4, 0x5a]
              case SetTaskJobSpec(_, _) => [0x86, 0x66, 0x66, 0x56, 0x1f, 0xa4, 0xca, 0xc1]
              case ClaimTaskWithJobSpec => [0xe6, 0x28, 0x6b, 0x6d, 0xd0, 0xe4, 0xaf, 0x1f]
              case SubmitTaskResult(_, _) => [0x27, 0x6c, 0x4a, 0x04, 0x42, 0x7d, 0x9d, 0x07]
              case AcceptTaskResult => [0x59, 0xe6, 0x33, 0x19, 0x00, 0xdb, 0x05, 0x89]
              case RejectTaskResult(_) => [0x90, 0x07, 0x3a, 0xe8, 0x9d, 0xa7, 0x55, 0xd6]
              case CancelTask => [0x45, 0xe4, 0x86, 0xbb, 0x86, 0x69, 0xee, 0x30]
              case ExpireClaim => [0xb0, 0x4e, 0xf1, 0x1d, 0x9f, 0x51, 0x1a, 0x06]
  {
    var d := Discriminator(KindOfFields(f));
    assert (d + FieldsThen(f, []))[..8] == d;
  }
}
