/** Swap descriptors: the saved queue and the checks of
    src/handle_provide_instruction_descriptor.c, the capped amount of
    libsol/safe_math.c, and the descriptor-driven message walk of libsol/message.c. */
module Descriptors {
  import opened Bytes
  import opened Wire
  import opened Walk
  import opened Instructions
  import opened Numerals
  import P = Parser
  import Swap

  const MAX_DISCRIMINATOR_NUMBER := 15

  datatype Descriptor = Descriptor(
    programId: seq<byte>, discriminator: seq<byte>,
    amountSize: byte, amountOffset: byte, bigEndian: bool, negativeOffset: bool,
    assetAccount: Option<byte>, assetAta: Option<byte>,
    recipientAccount: Option<byte>, recipientAta: Option<byte>,
    cappedBps: Option<u16>, cappedToken: Option<byte>)

  // ---------- safe_math.c ----------

  /** The two 32-bit quotient digits of prodHi * 2^32 + prodLo by 10000. */
  function DivideProducts(prodHi: u64, prodLo: u64): Option<u64> {
    var qHi := prodHi / 10000;
    var rHi := prodHi % 10000;
    if qHi > 0xFFFF_FFFF then None
    else
      var hiPart := Wrap64(qHi * 0x1_0000_0000);
      var loPart := Wrap64(Wrap64(rHi * 0x1_0000_0000) + prodLo) / 10000;
      if loPart > UINT64_MAX - hiPart then None else Some(hiPart + loPart)
  }

  /** safe_mul_bps_div10000: a * b / 10000 in two 32-bit halves. */
  function SafeMulBpsDiv10000(a: u64, b: u16): Option<u64> {
    DivideProducts(Wrap64(a / 0x1_0000_0000 * b), Wrap64(a % 0x1_0000_0000 * b))
  }

  lemma HalfProduct(x: u32, b: u16)
    ensures 0 <= x * b < 0x1_0000_0000_0000
  {
    MulMono(x, 0xFFFF_FFFF, b);
    MulMono(0, x, b);
  }

  lemma Product(a: u64, b: u16, hi: u32, lo: u32)
    requires a == hi * 0x1_0000_0000 + lo
    ensures a * b == hi * b * 0x1_0000_0000 + lo * b
  {
  }

  /** Long division in base 2^32 by 10000. */
  lemma DivideHalves(hi: nat, lo: nat)
    ensures (hi * 0x1_0000_0000 + lo) / 10000
         == hi / 10000 * 0x1_0000_0000 + (hi % 10000 * 0x1_0000_0000 + lo) / 10000
  {
    var q, r := hi / 10000, hi % 10000;
    var m := r * 0x1_0000_0000 + lo;
    assert hi * 0x1_0000_0000 + lo == (q * 0x1_0000_0000) * 10000 + m;
    assert ((q * 0x1_0000_0000) * 10000 + m) / 10000 == q * 0x1_0000_0000 + m / 10000;
  }

  /** Exactly the floor of a * b / 10000, and None exactly when that is no uint64_t. */
  lemma SafeMulIsExact(a: u64, b: u16)
    ensures SafeMulBpsDiv10000(a, b) == if a * b / 10000 <= UINT64_MAX then Some(a * b / 10000) else None
  {
    var hi, lo := a / 0x1_0000_0000, a % 0x1_0000_0000;
    HalfProduct(hi, b);
    HalfProduct(lo, b);
    Product(a, b, hi, lo);
    DivideHalves(hi * b, lo * b);
    DivideProductsIs(hi * b, lo * b, a * b / 10000);
  }

  lemma DivideProductsIs(hi: nat, lo: nat, quotient: nat)
    requires hi < 0x1_0000_0000_0000 && lo < 0x1_0000_0000_0000
    requires quotient == hi / 10000 * 0x1_0000_0000 + (hi % 10000 * 0x1_0000_0000 + lo) / 10000
    ensures DivideProducts(Wrap64(hi), Wrap64(lo)) == if quotient <= UINT64_MAX then Some(quotient) else None
  {
    NotWrapped(hi);
    NotWrapped(lo);
    DivideWith(hi, lo, hi / 10000, hi % 10000, hi % 10000 * 0x1_0000_0000 + lo);
  }

  lemma NotWrapped(x: nat)
    requires x <= UINT64_MAX
    ensures Wrap64(x) == x
  {
  }

  lemma DivideWith(hi: u64, lo: u64, q: nat, r: nat, n: nat)
    requires q == hi / 10000 && r == hi % 10000 && n == r * 0x1_0000_0000 + lo <= UINT64_MAX
    ensures DivideProducts(hi, lo) ==
              if q * 0x1_0000_0000 + n / 10000 <= UINT64_MAX then Some(q * 0x1_0000_0000 + n / 10000) else None
  {
    NotWrapped(r * 0x1_0000_0000);
    NotWrapped(n);
    if q <= 0xFFFF_FFFF { NotWrapped(q * 0x1_0000_0000); }
  }

  /** Staying under the cap is amount * 10000 <= a * bps. */
  lemma CapIff(amount: nat, product: nat)
    ensures amount <= product / 10000 <==> amount * 10000 <= product
  {
  }

  // ---------- the saved queue ----------

  /** A descriptor as it was received. */
  datatype Received = Received(isMainNet: bool, templateId: u64, descriptor: Descriptor)

  predicate SameSwap(x: Received, y: Received) { x.isMainNet == y.isMainNet && x.templateId == y.templateId }

  /** There is room for x, and it belongs to the swap of all that were kept. */
  ghost predicate IsKept(kept: seq<Received>, x: Received) {
    |kept| < MAX_DISCRIMINATOR_NUMBER && forall i :: 0 <= i < |kept| ==> SameSwap(kept[i], x)
  }

  ghost function Keep(kept: seq<Received>, x: Received): seq<Received> {
    if IsKept(kept, x) then kept + [x] else kept
  }

  /** The queue after a run of requests to save. */
  ghost function KeepAll(requests: seq<Received>): seq<Received> {
    if |requests| == 0 then [] else Keep(KeepAll(requests[..|requests| - 1]), requests[|requests| - 1])
  }

  /** The requests that belong to the swap of x, in order. */
  function OfSwap(requests: seq<Received>, x: Received): (r: seq<Received>)
    ensures forall i :: 0 <= i < |r| ==> SameSwap(r[i], x)
  {
    if |requests| == 0 then []
    else
      var n := |requests| - 1;
      OfSwap(requests[..n], x) + if SameSwap(requests[n], x) then [requests[n]] else []
  }

  function AtMost(s: seq<Received>, n: nat): seq<Received> { if |s| <= n then s else s[..n] }

  /** Over every run the queue holds the first fifteen requests that share network and
      template with the very first one. The runs include those that go on after a request
      that was refused, where the application itself exits. */
  lemma {:induction false} KeptAre(requests: seq<Received>)
    ensures |requests| > 0 ==> KeepAll(requests) == AtMost(OfSwap(requests, requests[0]), MAX_DISCRIMINATOR_NUMBER)
    ensures |requests| > 0 ==> |KeepAll(requests)| > 0 && KeepAll(requests)[0] == requests[0]
  {
    if |requests| == 1 {
      assert requests[..0] == [] && KeepAll([]) == [] && OfSwap([], requests[0]) == [];
    } else if |requests| > 1 {
      var n := |requests| - 1;
      KeptAre(requests[..n]);
      KeepStep(KeepAll(requests[..n]), OfSwap(requests[..n], requests[0]), requests[n], requests[0]);
    }
  }

  /** What is kept agrees with the very first request in network and template, and no request
      that agrees with it is missing while there is room. */
  lemma {:induction false} KeptIff(requests: seq<Received>)
    requires |requests| > 0
    ensures forall x :: x in KeepAll(requests) ==>
                          x in requests && x.isMainNet == requests[0].isMainNet
                          && x.templateId == requests[0].templateId
    ensures |KeepAll(requests)| < 15 ==>
              forall x :: x in requests ==>
                            x.isMainNet == requests[0].isMainNet && x.templateId == requests[0].templateId ==>
                              x in KeepAll(requests)
    ensures |KeepAll(requests)| <= 15
  {
    KeptAre(requests);
    OfSwapIff(requests, requests[0]);
  }

  lemma {:induction false} OfSwapIff(requests: seq<Received>, first: Received)
    ensures forall x :: x in OfSwap(requests, first) <==>
                          x in requests && x.isMainNet == first.isMainNet && x.templateId == first.templateId
    decreases |requests|
  {
    if |requests| > 0 {
      var n := |requests| - 1;
      OfSwapIff(requests[..n], first);
      assert requests == requests[..n] + [requests[n]];
    }
  }

  lemma KeepStep(kept: seq<Received>, all: seq<Received>, x: Received, first: Received)
    requires kept == AtMost(all, MAX_DISCRIMINATOR_NUMBER) && |kept| > 0 && kept[0] == first
    requires forall i :: 0 <= i < |all| ==> SameSwap(all[i], first)
    ensures Keep(kept, x) == AtMost(all + (if SameSwap(x, first) then [x] else []), MAX_DISCRIMINATOR_NUMBER)
    ensures |Keep(kept, x)| > 0 && Keep(kept, x)[0] == first
  {
    assert forall i :: 0 <= i < |kept| ==> SameSwap(kept[i], first);
    if SameSwap(x, first) && |all| >= MAX_DISCRIMINATOR_NUMBER {
      assert (all + [x])[..MAX_DISCRIMINATOR_NUMBER] == all[..MAX_DISCRIMINATOR_NUMBER];
    } else {
      assert all + [] == all;
    }
  }

  class SavedDescriptors {
    var savedCount: byte
    var readCount: byte
    var isMainNet: bool
    var templateId: u64
    const descriptors: array<Descriptor>
    /** What was saved, in order. */
    ghost var received: seq<Received>

    ghost predicate Valid()
      reads this, descriptors
    {
      && descriptors.Length == MAX_DISCRIMINATOR_NUMBER
      && readCount <= savedCount <= MAX_DISCRIMINATOR_NUMBER && |received| == savedCount
      && forall i :: 0 <= i < savedCount ==> received[i] == Received(isMainNet, templateId, descriptors[i])
    }

    constructor ()
      ensures Valid() && fresh(descriptors) && savedCount == 0 && readCount == 0 && received == []
    {
      var none := Descriptor([], [], 0, 0, false, false, None, None, None, None, None, None);
      savedCount, readCount, isMainNet, templateId := 0, 0, false, 0;
      received := [];
      descriptors := new Descriptor[MAX_DISCRIMINATOR_NUMBER](_ => none);
    }

    /** save_instruction_descriptor: kept only if there is room and it has the network and
        template of the ones before it. */
    method Save(isMainNet: bool, templateId: u64, d: Descriptor) returns (ok: bool)
      requires Valid()
      modifies this, descriptors
      ensures Valid() && readCount == old(readCount)
      ensures ok <==> IsKept(old(received), Received(isMainNet, templateId, d))
      ensures received == Keep(old(received), Received(isMainNet, templateId, d))
    {
      if savedCount >= MAX_DISCRIMINATOR_NUMBER {
        return false;
      }
      if savedCount > 0 {
        assert received[0] == Received(this.isMainNet, this.templateId, descriptors[0]);
        if isMainNet != this.isMainNet {
          return false;
        }
        if templateId != this.templateId {
          return false;
        }
      } else {
        this.isMainNet := isMainNet;
        this.templateId := templateId;
      }
      descriptors[savedCount] := d;
      received := received + [Received(isMainNet, templateId, d)];
      savedCount := savedCount + 1;
      return true;
    }

    /** get_next_descriptor */
    method GetNext() returns (rc: int, d: Descriptor)
      requires Valid()
      modifies this`readCount
      ensures Valid()
      ensures rc == 0 <==> old(readCount) < savedCount
      ensures rc == 0 ==> d == received[old(readCount)].descriptor && readCount == old(readCount) + 1
      ensures rc != 0 ==> readCount == old(readCount)
    {
      if readCount >= savedCount {
        d := Descriptor([], [], 0, 0, false, false, None, None, None, None, None, None);
        return -1, d;
      }
      d := descriptors[readCount];
      readCount := readCount + 1;
      rc := 0;
    }
  }

  // ---------- the amount ----------

  function BigEndian(s: seq<byte>): nat {
    BytesInBase(s);
    ValueBound(s, B256);
    Value(s, B256)
  }

  function LittleEndian(s: seq<byte>): nat {
    if |s| == 0 then 0 else s[0] + 0x100 * LittleEndian(s[1..])
  }

  lemma BigEndianSnoc(s: seq<byte>, b: byte)
    ensures BigEndian(s + [b]) == 0x100 * BigEndian(s) + b
  {
    ValueSnoc(s, b, B256);
  }

  lemma {:induction false} ReversedEndian(s: seq<byte>)
    ensures BigEndian(Reversed(s)) == LittleEndian(s)
  {
    if |s| > 0 {
      ReversedEndian(s[1..]);
      assert s == [s[0]] + s[1..];
      ReversedSnoc(s[1..], s[0]);
      BigEndianSnoc(Reversed(s[1..]), s[0]);
    }
  }

  /** Where the amount starts: from the front, or from the end. */
  function AmountStart(d: Descriptor, n: nat): Option<nat> {
    if !d.negativeOffset then Some(d.amountOffset)
    else if d.amountOffset <= n then Some(n - d.amountOffset)
    else None
  }

  function AmountIn(d: Descriptor, data: seq<byte>): Option<nat> {
    var start :- AmountStart(d, |data|);
    if start + d.amountSize > |data| || d.amountSize > 8 then None
    else
      var field := data[start..start + d.amountSize];
      Some(if d.bigEndian then BigEndian(field) else LittleEndian(field))
  }

  lemma AccumulateStep(s: seq<byte>, i: nat)
    requires i < |s| <= 8
    ensures BigEndian(s[..i + 1]) == BigEndian(s[..i]) * 0x100 + s[i] <= UINT64_MAX
  {
    var t := s[..i + 1];
    assert t[..i] == s[..i];
    BytesInBase(t);
    ValueBound(t, B256);
    PowMono(B256, i + 1, 8);
    EightBytes();
  }

  /** The loop over at most eight big-endian bytes. */
  method Accumulate(s: seq<byte>) returns (value: u64)
    requires |s| <= 8
    ensures value == BigEndian(s)
  {
    value := 0;
    assert s[..0] == [];
    for i := 0 to |s|
      invariant value == BigEndian(s[..i])
    {
      AccumulateStep(s, i);
      value := Wrap64(value * 0x100) + s[i];
    }
    assert s[..|s|] == s;
  }

  method ReverseCopy(s: seq<byte>) returns (tmp: array<byte>)
    requires |s| <= 8
    ensures fresh(tmp) && tmp.Length == 8 && tmp[..|s|] == Reversed(s)
  {
    tmp := new byte[8](_ => 0);
    for i := 0 to |s|
      invariant forall k :: 0 <= k < i ==> tmp[k] == s[|s| - 1 - k]
    {
      tmp[i] := s[|s| - 1 - i];
    }
    forall k | 0 <= k < |s| ensures tmp[k] == Reversed(s)[k] {
      ReversedAt(s, k);
    }
  }

  /** read_amount_using_descriptor */
  method ReadAmount(data: seq<byte>, d: Descriptor) returns (rc: int, value: u64)
    ensures rc == 0 <==> AmountIn(d, data).Some?
    ensures rc == 0 ==> AmountIn(d, data) == Some(value)
  {
    var offset: nat := d.amountOffset;
    if d.negativeOffset {
      if d.amountOffset > |data| {
        return -1, 0;
      }
      offset := |data| - d.amountOffset;
    }
    if offset + d.amountSize > |data| {
      return -1, 0;
    }
    if d.amountSize > 8 {
      return -1, 0;
    }
    var field := data[offset..offset + d.amountSize];
    if d.bigEndian {
      value := Accumulate(field);
    } else {
      var tmp := ReverseCopy(field);
      value := Accumulate(tmp[..d.amountSize]);
      ReversedEndian(field);
    }
    rc := 0;
  }

  // ---------- one instruction against its descriptor ----------

  /** What the swap checks take from the rest of the application: the mint of the swapped
      token, the decoded recipient, the signer's key, and the derivation of associated
      token accounts. */
  datatype Environment = Environment(
    mint: Option<seq<byte>>, isToken2022: bool, recipient: Option<seq<byte>>, signer: Option<seq<byte>>,
    isAta: (seq<byte>, seq<byte>, seq<byte>, bool) -> bool)

  /** The amount an instruction moves is the swap amount, or at most the cap. */
  ghost predicate AmountAccepted(data: seq<byte>, d: Descriptor, swap: Option<u64>) {
    d.amountSize > 0 ==>
      && swap.Some? && AmountIn(d, data).Some?
      && (d.cappedBps.None? ==> AmountIn(d, data).value == swap.value)
      && (d.cappedBps.Some? ==> (&& AmountIn(d, data).value * 10000 <= swap.value * d.cappedBps.value
                                 && swap.value * d.cappedBps.value / 10000 <= UINT64_MAX))
  }

  ghost predicate IsKey(i: Instruction, h: MessageHeader, slot: Option<byte>, key: seq<byte>)
    requires IndicesInRange(i, h)
  {
    slot.Some? ==> AccountOf(i, h, slot.value) == Some(key)
  }

  ghost predicate IsAtaOf(i: Instruction, h: MessageHeader, slot: Option<byte>, env: Environment,
                          owner: Option<seq<byte>>)
    requires IndicesInRange(i, h) && env.mint.Some?
  {
    slot.Some? ==>
      owner.Some? && AccountOf(i, h, slot.value).Some?
      && env.isAta(owner.value, env.mint.value, AccountOf(i, h, slot.value).value, env.isToken2022)
  }

  ghost predicate AccountsAccepted(i: Instruction, h: MessageHeader, d: Descriptor, env: Environment)
    requires IndicesInRange(i, h) && env.mint.Some? && env.recipient.Some?
  {
    && IsKey(i, h, d.cappedToken, env.mint.value) && IsKey(i, h, d.assetAccount, env.mint.value)
    && IsAtaOf(i, h, d.assetAta, env, env.signer)
    && IsKey(i, h, d.recipientAccount, env.recipient.value)
    && IsAtaOf(i, h, d.recipientAta, env, env.recipient)
  }

  /** The instruction does what its descriptor allows, for the validated swap. */
  ghost predicate Follows(i: Instruction, h: MessageHeader, d: Descriptor, env: Environment, swap: Option<u64>) {
    && IndicesInRange(i, h) && env.mint.Some? && env.recipient.Some?
    && ProgramOf(i, h) == d.programId && d.discriminator <= i.data
    && AmountAccepted(i.data, d, swap) && AccountsAccepted(i, h, d, env)
  }

  function SwapAmount(swap: Swap.SwapContext): Option<u64>
    reads swap
  {
    if swap.initialized then Some(swap.amount) else None
  }

  /** CHECK AMOUNT */
  method CheckAmount(i: Instruction, d: Descriptor, swap: Swap.SwapContext) returns (rc: int)
    ensures rc == 0 <==> AmountAccepted(i.data, d, SwapAmount(swap))
  {
    if d.amountSize == 0 {
      return 0;
    }
    var value;
    rc, value := ReadAmount(i.data, d);
    if rc != 0 { return -1; }
    if d.cappedBps.Some? {
      var swapAmount;
      rc, swapAmount := swap.GetSwapAmountRaw();
      if rc != 0 { return -1; }
      SafeMulIsExact(swapAmount, d.cappedBps.value);
      var product := swapAmount * d.cappedBps.value;
      var cap := SafeMulBpsDiv10000(swapAmount, d.cappedBps.value);
      if cap.None? {
        return -1;
      }
      CapIff(value, product);
      if value > cap.value {
        return -1;
      }
      return 0;
    } else {
      var same := swap.CheckSwapAmountRaw(value);
      return if same then 0 else -1;
    }
  }

  method CheckKey(i: Instruction, h: MessageHeader, slot: Option<byte>, key: seq<byte>) returns (rc: int)
    requires IndicesInRange(i, h)
    ensures rc == 0 <==> IsKey(i, h, slot, key)
  {
    if slot.None? {
      return 0;
    }
    var account := AccountOf(i, h, slot.value);
    if account.None? {
      return -1;
    }
    if key != account.value {
      return -1;
    }
    return 0;
  }

  method CheckAta(i: Instruction, h: MessageHeader, slot: Option<byte>, env: Environment, owner: Option<seq<byte>>)
      returns (rc: int)
    requires IndicesInRange(i, h) && env.mint.Some?
    ensures rc == 0 <==> IsAtaOf(i, h, slot, env, owner)
  {
    if slot.None? {
      return 0;
    }
    var account := AccountOf(i, h, slot.value);
    if account.None? {
      return -1;
    }
    if owner.None? {
      return -1;
    }
    if !env.isAta(owner.value, env.mint.value, account.value, env.isToken2022) {
      return -1;
    }
    return 0;
  }

  method CheckAccounts(i: Instruction, h: MessageHeader, d: Descriptor, env: Environment) returns (rc: int)
    requires IndicesInRange(i, h) && env.mint.Some? && env.recipient.Some?
    ensures rc == 0 <==> AccountsAccepted(i, h, d, env)
  {
    rc := CheckKey(i, h, d.cappedToken, env.mint.value);
    if rc != 0 { return; }
    rc := CheckKey(i, h, d.assetAccount, env.mint.value);
    if rc != 0 { return; }
    rc := CheckAta(i, h, d.assetAta, env, env.signer);
    if rc != 0 { return; }
    rc := CheckKey(i, h, d.recipientAccount, env.recipient.value);
    if rc != 0 { return; }
    rc := CheckAta(i, h, d.recipientAta, env, env.recipient);
  }

  /** validate_instruction_using_descriptor: takes the next descriptor off the queue. */
  method ValidateInstruction(i: Instruction, h: MessageHeader, saved: SavedDescriptors, env: Environment,
                             swap: Swap.SwapContext)
      returns (rc: int)
    requires saved.Valid() && IndicesInRange(i, h)
    modifies saved`readCount
    ensures saved.Valid()
    ensures rc == 0 <==> old(saved.readCount) < saved.savedCount
                         && Follows(i, h, saved.received[old(saved.readCount)].descriptor, env, SwapAmount(swap))
    ensures rc == 0 ==> saved.readCount == old(saved.readCount) + 1
  {
    if env.mint.None? {
      return -1;
    }
    if env.recipient.None? {
      return -1;
    }
    var d;
    rc, d := saved.GetNext();
    if rc != 0 {
      return -1;
    }
    if ProgramOf(i, h) != d.programId {
      return -1;
    }
    if |d.discriminator| != 0 {
      if |i.data| < |d.discriminator| {
        return -1;
      }
      if i.data[..|d.discriminator|] != d.discriminator {
        return -1;
      }
    }
    rc := CheckAmount(i, d, swap);
    if rc != 0 { return; }
    rc := CheckAccounts(i, h, d, env);
  }

  // ---------- the message ----------

  /** Instruction k follows the k-th descriptor after the first start ones. */
  ghost function FollowsFrom(h: MessageHeader, received: seq<Received>, start: nat, env: Environment,
                             swap: Option<u64>):
      (Instruction, nat) -> bool
  {
    (i: Instruction, k: nat) => start + k < |received| && Follows(i, h, received[start + k].descriptor, env, swap)
  }

  /** The instruction read from s is the one the descriptor at that place allows. */
  ghost predicate NextFollows(s: seq<byte>, h: MessageHeader, received: seq<Received>, at: nat,
                              env: Environment, swap: Option<u64>) {
    && ReadInstruction(s).Done? && at < |received|
    && Follows(ReadInstruction(s).value, h, received[at].descriptor, env, swap)
  }

  lemma PassesIff(s: seq<byte>, k: nat, h: MessageHeader, received: seq<Received>, start: nat, at: nat,
                  env: Environment, swap: Option<u64>, ok: (Instruction, nat) -> bool)
    requires ok == FollowsFrom(h, received, start, env, swap) && at == start + k
    ensures NextPasses(s, k, ok) <==> NextFollows(s, h, received, at, env, swap)
  {
  }

  /** Nothing but instructions was read, one for each descriptor in order. */
  ghost predicate AllFollow(all: Parsed<seq<Instruction>>, h: MessageHeader, received: seq<Received>,
                            env: Environment, swap: Option<u64>) {
    && all.Done? && all.rest == [] && |all.value| == |received|
    && forall k :: 0 <= k < |received| ==> Follows(all.value[k], h, received[k].descriptor, env, swap)
  }

  ghost predicate Authorised(body: seq<byte>, h: MessageHeader, received: seq<Received>, env: Environment,
                             swap: Option<u64>) {
    && h.instructionsLength == |received| > 0
    && AllFollow(ReadInstructions(body, h.instructionsLength), h, received, env, swap)
  }

  /** parse_validate_and_debug_instruction_accounts, then the descriptor check. */
  method CheckInstruction(p: P.Parser, h: MessageHeader, saved: SavedDescriptors, env: Environment,
                          swap: Swap.SwapContext)
      returns (rc: int)
    requires p.Valid() && saved.Valid() && |h.prefix.pubkeys| == h.prefix.counts.pubkeysLength * PUBKEY_SIZE
    modifies p`at, saved`readCount
    ensures p.Valid() && saved.Valid()
    ensures rc == 0 <==> NextFollows(old(p.Rest()), h, saved.received, old(saved.readCount), env, SwapAmount(swap))
    ensures rc == 0 ==> p.Rest() == ReadInstruction(old(p.Rest())).rest && saved.readCount == old(saved.readCount) + 1
  {
    var i;
    rc, i := p.ParseInstruction();
    if rc != 0 {
      return -1;
    }
    rc := InstructionValidate(i, h);
    if rc != 0 {
      return -1;
    }
    rc := ValidateInstruction(i, h, saved, env, swap);
    if rc != 0 {
      return -1;
    }
  }

  /** The same as the k-th check of a walk. */
  method CheckNext(p: P.Parser, h: MessageHeader, saved: SavedDescriptors, env: Environment, swap: Swap.SwapContext,
                   ghost k: nat, ghost start: nat, ghost ok: (Instruction, nat) -> bool)
      returns (rc: int)
    requires p.Valid() && saved.Valid() && |h.prefix.pubkeys| == h.prefix.counts.pubkeysLength * PUBKEY_SIZE
    requires saved.readCount == start + k && ok == FollowsFrom(h, saved.received, start, env, SwapAmount(swap))
    modifies p`at, saved`readCount
    ensures p.Valid() && saved.Valid()
    ensures rc == 0 <==> NextPasses(old(p.Rest()), k, ok)
    ensures rc == 0 ==> p.Rest() == ReadInstruction(old(p.Rest())).rest && saved.readCount == start + k + 1
  {
    PassesIff(p.Rest(), k, h, saved.received, start, saved.readCount, env, SwapAmount(swap), ok);
    rc := CheckInstruction(p, h, saved, env, swap);
  }

  /** The loop body: one instruction is read and checked. */
  method StepInstruction(p: P.Parser, h: MessageHeader, saved: SavedDescriptors, env: Environment,
                         swap: Swap.SwapContext,
                         ghost all: Parsed<seq<Instruction>>, ghost done: seq<Instruction>, ghost n: nat,
                         ghost left: nat, ghost start: nat,
                         ghost ok: (Instruction, nat) -> bool)
      returns (rc: int, ghost next: seq<Instruction>)
    requires p.Valid() && saved.Valid() && |h.prefix.pubkeys| == h.prefix.counts.pubkeysLength * PUBKEY_SIZE
    requires n > 0 && left == n - 1 && saved.readCount == start + |done|
    requires ok == FollowsFrom(h, saved.received, start, env, SwapAmount(swap))
    requires Walking(all, done, ReadInstructions(p.Rest(), n), ok)
    modifies p`at, saved`readCount
    ensures p.Valid() && saved.Valid()
    ensures rc == 0 ==> |next| == |done| + 1 && saved.readCount == start + |next|
                        && Walking(all, next, ReadInstructions(p.Rest(), left), ok)
    ensures rc != 0 ==> !Accepts(all, ok)
  {
    ghost var first := ReadInstruction(p.Rest());
    WalkNext(all, done, p.Rest(), n, left, ok);
    rc := CheckNext(p, h, saved, env, swap, |done|, start, ok);
    next := if rc == 0 then done + [first.value] else done;
  }

  /** The loop over the instructions. */
  method WalkInstructions(p: P.Parser, h: MessageHeader, saved: SavedDescriptors, env: Environment,
                          swap: Swap.SwapContext,
                          ghost all: Parsed<seq<Instruction>>)
      returns (rc: int, ghost done: seq<Instruction>)
    requires p.Valid() && saved.Valid() && |h.prefix.pubkeys| == h.prefix.counts.pubkeysLength * PUBKEY_SIZE
    requires all == ReadInstructions(p.Rest(), h.instructionsLength)
    modifies p`at, saved`readCount
    ensures p.Valid() && saved.Valid()
    ensures rc == 0 ==> all == Done(done, p.Rest()) && saved.readCount == old(saved.readCount) + h.instructionsLength
    ensures rc == 0 <==> Accepts(all, FollowsFrom(h, saved.received, old(saved.readCount), env, SwapAmount(swap)))
  {
    done, rc := [], 0;
    ghost var left: nat, start := h.instructionsLength, saved.readCount;
    ghost var ok := FollowsFrom(h, saved.received, start, env, SwapAmount(swap));
    WalkStart(all, ok);
    for insIdx := 0 to h.instructionsLength
      invariant rc == 0 && p.Valid() && saved.Valid() && |done| == insIdx && saved.readCount == start + insIdx
      invariant left == h.instructionsLength - insIdx
      invariant ok == FollowsFrom(h, saved.received, start, env, SwapAmount(swap))
      invariant Walking(all, done, ReadInstructions(p.Rest(), left), ok)
    {
      ghost var n := left;
      left := n - 1;
      rc, done := StepInstruction(p, h, saved, env, swap, all, done, n, left, start, ok);
      if rc != 0 {
        return;
      }
    }
    WalkEnd(all, done, p.Rest(), ok);
  }

  /** When as many instructions as descriptors follow the ones after the first start,
      start is 0. */
  lemma AllFollowIff(all: Parsed<seq<Instruction>>, h: MessageHeader, received: seq<Received>, start: nat,
                     env: Environment, swap: Option<u64>)
    requires all.Done? ==> |all.value| == |received| > 0
    ensures (Accepts(all, FollowsFrom(h, received, start, env, swap)) && all.rest == [])
            <==> (start == 0 && AllFollow(all, h, received, env, swap))
  {
    var ok := FollowsFrom(h, received, start, env, swap);
    if Accepts(all, ok) {
      assert ok(all.value[|received| - 1], |received| - 1);
    }
  }

  /** process_message_body_with_descriptor: accepts exactly a body that is one
      instruction per saved descriptor, in order, when none was used before; then all of
      them are used up. */
  method ProcessMessageBodyWithDescriptor(body: seq<byte>, h: MessageHeader, saved: SavedDescriptors?,
                                          env: Environment, swap: Swap.SwapContext)
      returns (rc: int)
    requires saved != null ==> saved.Valid()
    requires |h.prefix.pubkeys| == h.prefix.counts.pubkeysLength * PUBKEY_SIZE
    modifies saved
    ensures saved != null ==> saved.Valid() && saved.received == old(saved.received)
    ensures rc == 0 <==> saved != null && old(saved.readCount) == 0
                         && Authorised(body, h, saved.received, env, SwapAmount(swap))
    ensures rc == 0 ==> saved.readCount == saved.savedCount
  {
    if h.instructionsLength == 0 {
      return 1;
    }
    if saved == null {
      return 1;
    }
    if saved.savedCount != h.instructionsLength {
      return -1;
    }
    AllFollowIff(ReadInstructions(body, h.instructionsLength), h, saved.received, saved.readCount, env,
                 SwapAmount(swap));
    var p := new P.Parser(body);
    ghost var done;
    rc, done := WalkInstructions(p, h, saved, env, swap, ReadInstructions(body, h.instructionsLength));
    if rc != 0 {
      return;
    }
    var empty := p.IsEmpty();
    if !empty {
      return -1;
    }
    return 0;
  }

  // ---------- what a descriptor allows, on the bytes ----------

  /** The amount field: at most eight bytes inside the data, from the front or the end. */
  lemma AmountInIff(d: Descriptor, data: seq<byte>, value: nat)
    ensures AmountIn(d, data) == Some(value)
       <==> var start := if d.negativeOffset then |data| - d.amountOffset else d.amountOffset as int;
            && 0 <= start && start + d.amountSize <= |data| && d.amountSize <= 8
            && value == if d.bigEndian then BigEndian(data[start..start + d.amountSize])
                        else LittleEndian(data[start..start + d.amountSize])
  {
  }

  /** Byte by byte: the first is the least significant in one order, the last in the other. */
  lemma EndiansInBytes(s: seq<byte>, b: byte)
    ensures LittleEndian([]) == 0 && LittleEndian([b] + s) == b + 0x100 * LittleEndian(s)
    ensures BigEndian([]) == 0 && BigEndian(s + [b]) == 0x100 * BigEndian(s) + b
  {
    assert ([b] + s)[1..] == s;
    BigEndianSnoc(s, b);
  }

  /** The 32 bytes of the key that the account in slot s names. */
  ghost predicate Names(i: Instruction, h: MessageHeader, s: int, key: seq<byte>) {
    0 <= s < |i.accounts|
    && var o: int := 32 * i.accounts[s] as int;
       o + 32 <= |h.prefix.pubkeys| && h.prefix.pubkeys[o..o + 32] == key
  }

  /** What a descriptor allows: the indices name keys of the message, the key of the program
      is the descriptor's, the data starts with the discriminator, the amount is that of the
      swap or under the cap, and the key of the account in each slot that the descriptor
      names is the mint or the recipient, or a token account of the signer or the
      recipient. */
  ghost predicate Allowed(i: Instruction, h: MessageHeader, d: Descriptor, env: Environment, swap: Option<u64>) {
    var keys, n, program := h.prefix.pubkeys, h.prefix.counts.pubkeysLength, 32 * i.programIdIndex as int;
    && |keys| == 32 * n && i.programIdIndex < n && (forall j :: 0 <= j < |i.accounts| ==> i.accounts[j] < n)
    && keys[program..program + 32] == d.programId
    && |d.discriminator| <= |i.data| && i.data[..|d.discriminator|] == d.discriminator
    && (d.amountSize > 0 ==>
          exists value :: AmountIn(d, i.data) == Some(value) && swap.Some?
            && if d.cappedBps.None? then value == swap.value
               else value * 10000 <= swap.value * d.cappedBps.value
                    && swap.value * d.cappedBps.value / 10000 <= 0xFFFF_FFFF_FFFF_FFFF)
    && env.mint.Some? && env.recipient.Some?
    && (d.cappedToken.Some? ==> Names(i, h, d.cappedToken.value, env.mint.value))
    && (d.assetAccount.Some? ==> Names(i, h, d.assetAccount.value, env.mint.value))
    && (d.assetAta.Some? ==>
          exists key :: Names(i, h, d.assetAta.value, key) && env.signer.Some?
                        && env.isAta(env.signer.value, env.mint.value, key, env.isToken2022))
    && (d.recipientAccount.Some? ==> Names(i, h, d.recipientAccount.value, env.recipient.value))
    && (d.recipientAta.Some? ==>
          exists key :: Names(i, h, d.recipientAta.value, key)
                        && env.isAta(env.recipient.value, env.mint.value, key, env.isToken2022))
  }

  lemma {:induction false} NamesIff(i: Instruction, h: MessageHeader, s: byte, key: seq<byte>)
    requires IndicesInRange(i, h)
    ensures Names(i, h, s, key) <==> AccountOf(i, h, s) == Some(key)
  {
    if s < |i.accounts| {
      var j: int := i.accounts[s];
      assert 32 * j + 32 <= 32 * h.prefix.counts.pubkeysLength;
    }
  }

  lemma {:induction false} FollowsIff(i: Instruction, h: MessageHeader, d: Descriptor, env: Environment,
                                      swap: Option<u64>)
    ensures Follows(i, h, d, env, swap) <==> Allowed(i, h, d, env, swap)
  {
    if IndicesInRange(i, h) {
      forall s: byte, key ensures Names(i, h, s, key) <==> AccountOf(i, h, s) == Some(key) {
        NamesIff(i, h, s, key);
      }
    }
  }

  /** A body is accepted exactly when it is one instruction for each saved descriptor, each
      as its descriptor allows, and no byte more. */
  lemma {:induction false} AuthorisedIff(body: seq<byte>, h: MessageHeader, received: seq<Received>,
                                         env: Environment, swap: Option<u64>)
    ensures Authorised(body, h, received, env, swap)
       <==> h.instructionsLength == |received| > 0
            && exists ins :: ReadInstructions(body, |received|) == Done(ins, [])
                 && forall k :: 0 <= k < |received| ==> Allowed(ins[k], h, received[k].descriptor, env, swap)
  {
    var all := ReadInstructions(body, |received|);
    if all.Done? {
      forall k | 0 <= k < |received|
        ensures Follows(all.value[k], h, received[k].descriptor, env, swap)
           <==> Allowed(all.value[k], h, received[k].descriptor, env, swap)
      {
        FollowsIff(all.value[k], h, received[k].descriptor, env, swap);
      }
    }
  }

  /** The address-table count of a versioned message is never read here, so a versioned
      message, whose body ends with that count, is refused whatever was saved. */
  lemma VersionedIsRefused(ins: seq<Instruction>, tables: seq<byte>, h: MessageHeader, received: seq<Received>,
                           env: Environment, swap: Option<u64>)
    requires ValidInstructions(ins) && h.instructionsLength == |ins| && |tables| > 0
    ensures !Authorised(InstructionsBytes(ins) + tables, h, received, env, swap)
  {
    InstructionsRoundTrip(ins, tables);
  }
}
