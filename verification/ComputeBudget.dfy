/** libsol/compute_budget_instruction.c: the four instructions and the maximum fee. */
module ComputeBudget {
  import opened Bytes
  import opened Wire
  import A = AgencData
  import P = Parser

  const MAX_CU_PER_INSTRUCTION := 200000
  const MAX_CU_PER_TRANSACTION := 1400000
  const FEE_LAMPORTS_PER_SIGNATURE := 5000
  const MICRO_LAMPORT_MULTIPLIER := 1000000
  /** The rent of a new token account, which the dispatcher adds to some fees. */
  const TOKEN_ACCOUNT_RENT := 2039280

  datatype Budget =
    | RequestHeapFrame(bytes: u32)
    | ChangeUnitLimit(limit: u32)
    | ChangeUnitPrice(price: u64)
    | SetLoadedAccountsDataSizeLimit(size: u32)

  datatype BudgetInfo = BudgetInfo(budget: Budget, signatures: byte)

  // ---------- the instructions ----------

  /** The instruction with a 32-bit setting that a tag names. */
  function Setting32(kind: byte, n: u32): Budget
    requires kind == 1 || kind == 2 || kind == 4
  {
    if kind == 1 then RequestHeapFrame(n)
    else if kind == 2 then ChangeUnitLimit(n)
    else SetLoadedAccountsDataSizeLimit(n)
  }

  function ReadBudgetBody(kind: byte, s: seq<byte>): Parsed<Budget> {
    if kind == 3 then
      var (n, s1) :- ReadU64(s);
      Done(ChangeUnitPrice(n), s1)
    else if 1 <= kind <= 4 then
      var (n, s1) :- ReadU32(s);
      Done(Setting32(kind, n), s1)
    else Fail
  }

  function ReadBudget(s: seq<byte>): Parsed<Budget> {
    var (kind, s1) :- ReadU8(s);
    ReadBudgetBody(kind, s1)
  }

  function Tag(b: Budget): byte {
    match b
    case RequestHeapFrame(_) => 1
    case ChangeUnitLimit(_) => 2
    case ChangeUnitPrice(_) => 3
    case SetLoadedAccountsDataSizeLimit(_) => 4
  }

  function BodyBytes(b: Budget): seq<byte> {
    match b
    case RequestHeapFrame(n) => A.U32Bytes(n)
    case ChangeUnitLimit(n) => A.U32Bytes(n)
    case ChangeUnitPrice(n) => A.U64Bytes(n)
    case SetLoadedAccountsDataSizeLimit(n) => A.U32Bytes(n)
  }

  lemma PriceIff(s: seq<byte>, b: Budget, t: seq<byte>)
    ensures ReadBudgetBody(3, s) == Done(b, t) <==> Tag(b) == 3 && s == BodyBytes(b) + t
  {
    if b.ChangeUnitPrice? {
      A.U64Iff(s, b.price, t);
    }
  }

  /** The 32-bit setting of an instruction that is not a price. */
  function Number32(b: Budget): u32
    requires Tag(b) != 3
  {
    match b
    case RequestHeapFrame(n) => n
    case ChangeUnitLimit(n) => n
    case SetLoadedAccountsDataSizeLimit(n) => n
  }

  lemma Setting32Iff(kind: byte, s: seq<byte>, b: Budget, t: seq<byte>)
    requires kind == 1 || kind == 2 || kind == 4
    ensures ReadBudgetBody(kind, s) == Done(b, t) <==> Tag(b) == kind && s == BodyBytes(b) + t
  {
    if Tag(b) == kind {
      A.U32Iff(s, Number32(b), t);
    }
  }

  lemma BodyIff(kind: byte, s: seq<byte>, b: Budget, t: seq<byte>)
    ensures ReadBudgetBody(kind, s) == Done(b, t) <==> kind == Tag(b) && s == BodyBytes(b) + t
  {
    if kind == 3 {
      PriceIff(s, b, t);
    } else if 1 <= kind <= 4 {
      Setting32Iff(kind, s, b, t);
    }
  }

  /** The data is read as b exactly when it starts with b's serialized form; bytes after
      it are not looked at. */
  lemma BudgetIff(s: seq<byte>, b: Budget, t: seq<byte>)
    ensures ReadBudget(s) == Done(b, t) <==> s == [Tag(b)] + (BodyBytes(b) + t)
  {
    A.U8Iff(s, Tag(b), BodyBytes(b) + t);
    if |s| > 0 {
      BodyIff(s[0], s[1..], b, t);
    }
  }

  /** The four instructions in bytes. */
  lemma BudgetInBytes(s: seq<byte>)
    ensures ReadBudget(s).Done? <==> (|s| >= 5 && s[0] in {1, 2, 4}) || (|s| >= 9 && s[0] == 3)
    ensures |s| >= 5 ==>
              var n := LeastFirst(s[1], s[2], s[3], s[4]);
              && (s[0] == 1 ==> ReadBudget(s).value == RequestHeapFrame(n))
              && (s[0] == 2 ==> ReadBudget(s).value == ChangeUnitLimit(n))
              && (s[0] == 4 ==> ReadBudget(s).value == SetLoadedAccountsDataSizeLimit(n))
    ensures |s| >= 9 && s[0] == 3 ==>
              ReadBudget(s).value == ChangeUnitPrice(LeastFirst(s[1], s[2], s[3], s[4])
                                                     + 0x1_0000_0000 * LeastFirst(s[5], s[6], s[7], s[8]))
  {
    if |s| > 0 {
      U32InBytes(s[1..]);
      U64InBytes(s[1..]);
    }
  }

  method ParseBudget(p: P.Parser) returns (rc: int, b: Budget)
    requires p.Valid()
    modifies p`at
    ensures p.Valid() && P.Reports(ReadBudget(old(p.Rest())), rc, b, p.Rest())
  {
    b := RequestHeapFrame(0);
    var kind;
    rc, kind := p.ParseU8();
    if rc != 0 { return; }
    if kind == 3 {
      var n;
      rc, n := p.ParseU64();
      if rc != 0 { return; }
      b := ChangeUnitPrice(n);
    } else if 1 <= kind <= 4 {
      var n;
      rc, n := p.ParseU32();
      if rc != 0 { return; }
      b := Setting32(kind, n);
    } else {
      rc := 1;
    }
  }

  /** What parse_compute_budget_instructions makes of an instruction. */
  function BudgetOf(i: Instruction, h: MessageHeader): Option<BudgetInfo> {
    var r := ReadBudget(i.data);
    if r.Fail? then None else Some(BudgetInfo(r.value, h.prefix.counts.required))
  }

  method ParseComputeBudgetInstructions(i: Instruction, h: MessageHeader) returns (rc: int, info: BudgetInfo)
    ensures rc == 0 <==> BudgetOf(i, h).Some?
    ensures rc == 0 ==> BudgetOf(i, h) == Some(info)
  {
    var p := new P.Parser(i.data);
    var b;
    rc, b := ParseBudget(p);
    info := BudgetInfo(b, h.prefix.counts.required);
  }

  // ---------- the fee ----------

  datatype FeeInfo = FeeInfo(limit: Option<u32>, price: Option<u64>, count: nat, signatures: byte)

  /** The compute units paid for: the requested limit, or the default for so many
      instructions. */
  function Units(f: FeeInfo): nat {
    if f.limit.Some? then f.limit.value
    else if f.count * MAX_CU_PER_INSTRUCTION < MAX_CU_PER_TRANSACTION then f.count * MAX_CU_PER_INSTRUCTION
    else MAX_CU_PER_TRANSACTION
  }

  /** Price times units, in micro-lamports. */
  function ComputeCost(f: FeeInfo): nat {
    if f.price.Some? then f.price.value * Units(f) else 0
  }

  /** The fee in lamports; refused exactly when the product does not fit 64 bits. */
  function MaxFee(f: FeeInfo): Option<nat> {
    if ComputeCost(f) > UINT64_MAX then None
    else Some(FEE_LAMPORTS_PER_SIGNATURE * f.signatures + ComputeCost(f) / MICRO_LAMPORT_MULTIPLIER)
  }

  /** The fee in numbers, for a price p, and for the limit u or what stands in for it. */
  lemma MaxFeeIs(f: FeeInfo, p: u64, u: nat)
    requires f.price.Some? ==> f.price.value == p
    requires f.limit.Some? ==> u == f.limit.value
    requires f.limit.None? ==> u == if 200000 * f.count < 1400000 then 200000 * f.count else 1400000
    ensures f.price.None? ==> MaxFee(f) == Some(5000 * f.signatures)
    ensures f.price.Some? && p * u <= 0xFFFF_FFFF_FFFF_FFFF ==>
              MaxFee(f) == Some(5000 * f.signatures + p * u / 1000000)
    ensures f.price.Some? && p * u > 0xFFFF_FFFF_FFFF_FFFF ==> MaxFee(f).None?
  {
  }

  /** x > UINT64_MAX / n is the overflow test of a product. */
  lemma OverflowIff(x: u64, n: nat)
    requires n > 0
    ensures x > UINT64_MAX / n <==> x * n > UINT64_MAX
  {
    var q, r := UINT64_MAX / n, UINT64_MAX % n;
    DivMod(UINT64_MAX, n);
    if x > q {
      MulMono(q + 1, x, n);
    } else {
      MulMono(x, q, n);
    }
  }

  lemma DivMod(m: nat, n: nat)
    requires n > 0
    ensures m == m / n * n + m % n && 0 <= m % n < n
  {
  }

  /** The fee leaves room for the base fee and for the rent added later, so neither the
      check of the sum nor the unchecked addition can overflow. */
  lemma FeeLeavesRoom(f: FeeInfo)
    requires MaxFee(f).Some?
    ensures MaxFee(f).value + TOKEN_ACCOUNT_RENT <= UINT64_MAX
    ensures !(FEE_LAMPORTS_PER_SIGNATURE * f.signatures > UINT64_MAX - ComputeCost(f) / MICRO_LAMPORT_MULTIPLIER)
  {
  }

  /** A message has at most six instructions, so the default never reaches the cap. */
  lemma DefaultIsUncapped(f: FeeInfo)
    requires f.limit.None? && f.count <= 6
    ensures Units(f) == 200000 * f.count
  {
  }

  /** The part of calculate_max_fee for the price: units, overflow test and division. */
  method ComputeFee(f: FeeInfo) returns (rc: int, computeFee: u64)
    requires f.price.Some? && f.count * MAX_CU_PER_INSTRUCTION < 0x1_0000_0000
    ensures rc == 0 <==> ComputeCost(f) <= UINT64_MAX
    ensures rc == 0 ==> computeFee == ComputeCost(f) / MICRO_LAMPORT_MULTIPLIER
  {
    var maxCompute: u64 := 0;
    if f.limit.Some? {
      maxCompute := f.limit.value;
    } else {
      maxCompute := if f.count * MAX_CU_PER_INSTRUCTION < MAX_CU_PER_TRANSACTION
                    then f.count * MAX_CU_PER_INSTRUCTION else MAX_CU_PER_TRANSACTION;
    }
    ghost var cost := f.price.value * maxCompute;
    if maxCompute != 0 {
      OverflowIff(f.price.value, maxCompute);
      if f.price.value > UINT64_MAX / maxCompute {
        return -1, 0;
      }
    }
    computeFee := Wrap64(f.price.value * maxCompute) / MICRO_LAMPORT_MULTIPLIER;
    rc := 0;
  }

  /** calculate_max_fee */
  method CalculateMaxFee(f: FeeInfo) returns (rc: int, maxFee: u64)
    requires f.count * MAX_CU_PER_INSTRUCTION < 0x1_0000_0000
    ensures rc == 0 <==> MaxFee(f).Some?
    ensures rc == 0 ==> maxFee == MaxFee(f).value
    ensures f.price.None? ==> rc == 0 && maxFee == 5000 * f.signatures
    ensures f.price.Some? ==>
              var u: nat := if f.limit.Some? then f.limit.value
                            else if 200000 * f.count < 1400000 then 200000 * f.count else 1400000;
              (rc == 0 <==> f.price.value * u <= 0xFFFF_FFFF_FFFF_FFFF)
              && (rc == 0 ==> maxFee == 5000 * f.signatures + f.price.value * u / 1000000)
  {
    ghost var u := if f.limit.Some? then f.limit.value
                   else if 200000 * f.count < 1400000 then 200000 * f.count else 1400000;
    MaxFeeIs(f, if f.price.Some? then f.price.value else 0, u);
    maxFee := 0;
    var computeFee: u64 := 0;
    var baseFee: u64 := FEE_LAMPORTS_PER_SIGNATURE * f.signatures;
    if f.price.Some? {
      rc, computeFee := ComputeFee(f);
      if rc != 0 {
        return;
      }
    }
    FeeLeavesRoom(f);
    var overflow := baseFee > UINT64_MAX - computeFee;
    rc := if overflow then -1 else 0;
    maxFee := Wrap64(baseFee + computeFee);
  }
}
