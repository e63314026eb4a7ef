/** libsol/transaction_printers.c and the matching of libsol/instruction.c: which lists of
    recognised instructions are shown, as what, and with which fee. */
module Dispatch {
  import opened Bytes
  import opened ComputeBudget
  import AgencData
  import Agenc

  const MAX_INSTRUCTIONS := 6

  datatype SystemKind =
    | CreateAccount | Assign | Transfer | CreateAccountWithSeed | AdvanceNonceAccount | WithdrawNonceAccount
    | InitializeNonceAccount | AuthorizeNonceAccount | Allocate | AllocateWithSeed | AssignWithSeed

  datatype StakeKind =
    | StakeInitialize | StakeAuthorize | StakeDelegate | StakeSplit | StakeWithdraw | StakeDeactivate
    | StakeSetLockup | StakeMerge | StakeAuthorizeWithSeed | StakeInitializeChecked | StakeAuthorizeChecked
    | StakeAuthorizeCheckedWithSeed | StakeSetLockupChecked

  datatype VoteKind =
    | VoteInitialize | VoteAuthorize | VoteVote | VoteWithdraw | VoteUpdateValidatorId | VoteUpdateCommission
    | VoteSwitchVote | VoteAuthorizeChecked

  /** The token instructions that can be shown; the others by their code. */
  datatype TokenKind =
    | InitializeMint | InitializeAccount | InitializeAccount2 | InitializeMultisig | Revoke | SetAuthority
    | CloseAccount | FreezeAccount | ThawAccount | TransferChecked | ApproveChecked | MintToChecked
    | BurnChecked | SyncNative | TransferFeeExtension | OtherToken(code: nat)

  /** InstructionInfo: the program and kind of an instruction, and for AgenC and
      compute-budget instructions what was read. */
  datatype Info =
    | Unknown
    | System(system: SystemKind)
    | Stake(stake: StakeKind)
    | Vote(vote: VoteKind)
    | Token(token: TokenKind)
    | AssociatedTokenAccount
    | Memo
    | AssertOwner
    | Budget(info: BudgetInfo)
    | Agenc(agenc: Agenc.AgencInfo)

  // ---------- briefs ----------

  /** InstructionBrief: a program and, where it has kinds, the kind. */
  datatype Brief =
    | UnknownIx
    | SystemIx(system: SystemKind)
    | StakeIx(stake: StakeKind)
    | VoteIx(vote: VoteKind)
    | TokenIx(token: TokenKind)
    | AssociatedTokenAccountIx
    | MemoIx
    | AssertOwnerIx
    | BudgetIx(tag: byte)
    | AgencIx(agenc: AgencData.Kind)

  /** instruction_info_matches_brief */
  predicate InfoMatches(info: Info, brief: Brief) {
    match brief
    case UnknownIx => false
    case SystemIx(k) => info.System? && info.system == k
    case StakeIx(k) => info.Stake? && info.stake == k
    case VoteIx(k) => info.Vote? && info.vote == k
    case TokenIx(k) => info.Token? && info.token == k
    case AssociatedTokenAccountIx => info.AssociatedTokenAccount?
    case MemoIx => info.Memo?
    case AssertOwnerIx => info.AssertOwner?
    case BudgetIx(tag) => info.Budget? && Tag(info.info.budget) == tag
    case AgencIx(k) => info.Agenc? && AgencData.KindOfFields(info.agenc.fields) == k
  }

  predicate InfosMatch(infos: seq<Info>, briefs: seq<Brief>)
    requires |infos| == |briefs|
  {
    forall i :: 0 <= i < |infos| ==> InfoMatches(infos[i], briefs[i])
  }

  /** instruction_infos_match_briefs */
  method InstructionInfosMatchBriefs(infos: seq<Info>, briefs: seq<Brief>) returns (r: bool)
    requires |infos| == |briefs|
    ensures r <==> InfosMatch(infos, briefs)
  {
    var i := 0;
    while i < |infos|
      invariant 0 <= i <= |infos|
      invariant forall k :: 0 <= k < i ==> InfoMatches(infos[k], briefs[k])
    {
      if !InfoMatches(infos[i], briefs[i]) {
        break;
      }
      i := i + 1;
    }
    r := i == |infos|;
  }

  /** The brief of a recognised instruction. */
  function BriefOf(info: Info): Brief {
    match info
    case Unknown => UnknownIx
    case System(k) => SystemIx(k)
    case Stake(k) => StakeIx(k)
    case Vote(k) => VoteIx(k)
    case Token(k) => TokenIx(k)
    case AssociatedTokenAccount => AssociatedTokenAccountIx
    case Memo => MemoIx
    case AssertOwner => AssertOwnerIx
    case Budget(b) => BudgetIx(Tag(b.budget))
    case Agenc(a) => AgencIx(AgencData.KindOfFields(a.fields))
  }

  /** Matching is having that brief, except that nothing matches the unknown one. */
  lemma MatchIsEquality(info: Info, brief: Brief)
    ensures InfoMatches(info, brief) <==> brief != UnknownIx && BriefOf(info) == brief
  {
  }

  // ---------- patterns ----------

  datatype Pattern =
    | Single
    | CreateStakeAccount | CreateStakeAccountWithSeed
    | CreateNonceAccount | CreateNonceAccountWithSeed
    | CreateVoteAccount | CreateVoteAccountWithSeed
    | StakeAuthorizeBoth | VoteAuthorizeBoth
    | SplitIntoAllocatedSeed | SplitIntoCreated | SplitIntoCreatedSeed
    | TokenCreateMint | TokenCreateAccount | TokenCreateMultisig
    | AtaCreateWithTransfer | AgencCreateTaskWithReview
    | CreateStakeAndDelegate | CreateStakeWithSeedAndDelegate
    | SplitIntoAllocated | PrefundedSplitWithSeed | PrefundedSplit

  predicate Printable(info: Info) {
    !info.AssertOwner? && !info.Memo? && !info.Budget? && !info.Unknown?
  }

  // The comparisons with lists of two, three and four briefs.

  predicate Are2(infos: seq<Info>, x: Brief, y: Brief) {
    |infos| == 2 && BriefOf(infos[0]) == x && BriefOf(infos[1]) == y
  }

  predicate Are3(infos: seq<Info>, x: Brief, y: Brief, z: Brief) {
    |infos| == 3 && BriefOf(infos[0]) == x && BriefOf(infos[1]) == y && BriefOf(infos[2]) == z
  }

  predicate Are4(infos: seq<Info>, x: Brief, y: Brief, z: Brief, w: Brief) {
    && |infos| == 4 && BriefOf(infos[0]) == x && BriefOf(infos[1]) == y
    && BriefOf(infos[2]) == z && BriefOf(infos[3]) == w
  }

  /** What a list of instructions that is shown as p consists of. */
  ghost predicate IsPattern(p: Pattern, infos: seq<Info>) {
    match p
    case Single => |infos| == 1 && Printable(infos[0])
    case CreateStakeAccount => Are2(infos, SystemIx(CreateAccount), StakeIx(StakeInitialize))
                               || Are2(infos, SystemIx(CreateAccount), StakeIx(StakeInitializeChecked))
    case CreateStakeAccountWithSeed => Are2(infos, SystemIx(CreateAccountWithSeed), StakeIx(StakeInitialize))
                                       || Are2(infos, SystemIx(CreateAccountWithSeed), StakeIx(StakeInitializeChecked))
    case CreateNonceAccount => Are2(infos, SystemIx(CreateAccount), SystemIx(InitializeNonceAccount))
    case CreateNonceAccountWithSeed => Are2(infos, SystemIx(CreateAccountWithSeed), SystemIx(InitializeNonceAccount))
    case CreateVoteAccount => Are2(infos, SystemIx(CreateAccount), VoteIx(VoteInitialize))
    case CreateVoteAccountWithSeed => Are2(infos, SystemIx(CreateAccountWithSeed), VoteIx(VoteInitialize))
    case StakeAuthorizeBoth => Are2(infos, StakeIx(StakeAuthorize), StakeIx(StakeAuthorize))
                               || Are2(infos, StakeIx(StakeAuthorizeChecked), StakeIx(StakeAuthorizeChecked))
    case VoteAuthorizeBoth => Are2(infos, VoteIx(VoteAuthorize), VoteIx(VoteAuthorize))
                              || Are2(infos, VoteIx(VoteAuthorizeChecked), VoteIx(VoteAuthorizeChecked))
    case SplitIntoAllocatedSeed => Are2(infos, SystemIx(AllocateWithSeed), StakeIx(StakeSplit))
    case SplitIntoCreated => Are2(infos, SystemIx(CreateAccount), StakeIx(StakeSplit))
    case SplitIntoCreatedSeed => Are2(infos, SystemIx(CreateAccountWithSeed), StakeIx(StakeSplit))
    case TokenCreateMint => Are2(infos, SystemIx(CreateAccount), TokenIx(InitializeMint))
    case TokenCreateAccount => Are2(infos, SystemIx(CreateAccount), TokenIx(InitializeAccount))
                               || Are2(infos, SystemIx(CreateAccount), TokenIx(InitializeAccount2))
    case TokenCreateMultisig => Are2(infos, SystemIx(CreateAccount), TokenIx(InitializeMultisig))
    case AtaCreateWithTransfer => Are2(infos, AssociatedTokenAccountIx, TokenIx(TransferChecked))
                                  || Are2(infos, AssociatedTokenAccountIx, TokenIx(TransferFeeExtension))
    case AgencCreateTaskWithReview => Are2(infos, AgencIx(AgencData.Create), AgencIx(AgencData.Configure))
    case CreateStakeAndDelegate =>
      Are3(infos, SystemIx(CreateAccount), StakeIx(StakeInitialize), StakeIx(StakeDelegate))
    case CreateStakeWithSeedAndDelegate =>
      Are3(infos, SystemIx(CreateAccountWithSeed), StakeIx(StakeInitialize), StakeIx(StakeDelegate))
    case SplitIntoAllocated => Are3(infos, SystemIx(Allocate), SystemIx(Assign), StakeIx(StakeSplit))
    case PrefundedSplitWithSeed => Are3(infos, SystemIx(Transfer), SystemIx(AllocateWithSeed), StakeIx(StakeSplit))
    case PrefundedSplit => Are4(infos, SystemIx(Transfer), SystemIx(Allocate), SystemIx(Assign), StakeIx(StakeSplit))
  }

  // The same comparisons by the loop over briefs.

  method MatchesPair(infos: seq<Info>, x: Brief, y: Brief) returns (r: bool)
    requires |infos| == 2 && x != UnknownIx && y != UnknownIx
    ensures r <==> Are2(infos, x, y)
  {
    var briefs := [x, y];
    r := InstructionInfosMatchBriefs(infos, briefs);
    PairIsMatch(infos, x, y);
  }

  lemma PairIsMatch(infos: seq<Info>, x: Brief, y: Brief)
    requires |infos| == 2 && x != UnknownIx && y != UnknownIx
    ensures Are2(infos, x, y) <==> InfosMatch(infos, [x, y])
  {
    MatchIsEquality(infos[0], x);
    MatchIsEquality(infos[1], y);
  }

  method MatchesTriple(infos: seq<Info>, x: Brief, y: Brief, z: Brief) returns (r: bool)
    requires |infos| == 3 && x != UnknownIx && y != UnknownIx && z != UnknownIx
    ensures r <==> Are3(infos, x, y, z)
  {
    var briefs := [x, y, z];
    r := InstructionInfosMatchBriefs(infos, briefs);
    TripleIsMatch(infos, x, y, z);
  }

  lemma TripleIsMatch(infos: seq<Info>, x: Brief, y: Brief, z: Brief)
    requires |infos| == 3 && x != UnknownIx && y != UnknownIx && z != UnknownIx
    ensures Are3(infos, x, y, z) <==> InfosMatch(infos, [x, y, z])
  {
    MatchIsEquality(infos[0], x);
    MatchIsEquality(infos[1], y);
    MatchIsEquality(infos[2], z);
  }

  method MatchesFour(infos: seq<Info>, x: Brief, y: Brief, z: Brief, w: Brief) returns (r: bool)
    requires |infos| == 4 && x != UnknownIx && y != UnknownIx && z != UnknownIx && w != UnknownIx
    ensures r <==> Are4(infos, x, y, z, w)
  {
    var briefs := [x, y, z, w];
    r := InstructionInfosMatchBriefs(infos, briefs);
    FourIsMatch(infos, x, y, z, w);
  }

  lemma FourIsMatch(infos: seq<Info>, x: Brief, y: Brief, z: Brief, w: Brief)
    requires |infos| == 4 && x != UnknownIx && y != UnknownIx && z != UnknownIx && w != UnknownIx
    ensures Are4(infos, x, y, z, w) <==> InfosMatch(infos, [x, y, z, w])
  {
    MatchIsEquality(infos[0], x);
    MatchIsEquality(infos[1], y);
    MatchIsEquality(infos[2], z);
    MatchIsEquality(infos[3], w);
  }

  // The tests on two instructions, in the order of the program.

  predicate CreatesAccount(p: Pattern) {
    p.CreateStakeAccount? || p.CreateStakeAccountWithSeed? || p.CreateNonceAccount? || p.CreateNonceAccountWithSeed?
    || p.CreateVoteAccount? || p.CreateVoteAccountWithSeed?
  }

  predicate SetsOrSplits(p: Pattern) {
    p.StakeAuthorizeBoth? || p.VoteAuthorizeBoth? || p.SplitIntoAllocatedSeed? || p.SplitIntoCreated?
    || p.SplitIntoCreatedSeed?
  }

  predicate TokenOrAgenc(p: Pattern) {
    p.TokenCreateMint? || p.TokenCreateAccount? || p.TokenCreateMultisig? || p.AtaCreateWithTransfer?
    || p.AgencCreateTaskWithReview?
  }

  method FindCreate(infos: seq<Info>) returns (p: Option<Pattern>)
    requires |infos| == 2
    ensures p.Some? ==> IsPattern(p.value, infos)
    ensures p.None? ==> forall q :: CreatesAccount(q) ==> !IsPattern(q, infos)
  {
    var m;
    m := MatchesPair(infos, SystemIx(CreateAccount), StakeIx(StakeInitialize));
    if !m { m := MatchesPair(infos, SystemIx(CreateAccount), StakeIx(StakeInitializeChecked)); }
    if m { return Some(CreateStakeAccount); }
    m := MatchesPair(infos, SystemIx(CreateAccountWithSeed), StakeIx(StakeInitialize));
    if !m { m := MatchesPair(infos, SystemIx(CreateAccountWithSeed), StakeIx(StakeInitializeChecked)); }
    if m { return Some(CreateStakeAccountWithSeed); }
    m := MatchesPair(infos, SystemIx(CreateAccount), SystemIx(InitializeNonceAccount));
    if m { return Some(CreateNonceAccount); }
    m := MatchesPair(infos, SystemIx(CreateAccountWithSeed), SystemIx(InitializeNonceAccount));
    if m { return Some(CreateNonceAccountWithSeed); }
    m := MatchesPair(infos, SystemIx(CreateAccount), VoteIx(VoteInitialize));
    if m { return Some(CreateVoteAccount); }
    m := MatchesPair(infos, SystemIx(CreateAccountWithSeed), VoteIx(VoteInitialize));
    if m { return Some(CreateVoteAccountWithSeed); }
    return None;
  }

  method FindSetOrSplit(infos: seq<Info>) returns (p: Option<Pattern>)
    requires |infos| == 2
    ensures p.Some? ==> IsPattern(p.value, infos)
    ensures p.None? ==> forall q :: SetsOrSplits(q) ==> !IsPattern(q, infos)
  {
    var m;
    m := MatchesPair(infos, StakeIx(StakeAuthorize), StakeIx(StakeAuthorize));
    if !m { m := MatchesPair(infos, StakeIx(StakeAuthorizeChecked), StakeIx(StakeAuthorizeChecked)); }
    if m { return Some(StakeAuthorizeBoth); }
    m := MatchesPair(infos, VoteIx(VoteAuthorize), VoteIx(VoteAuthorize));
    if !m { m := MatchesPair(infos, VoteIx(VoteAuthorizeChecked), VoteIx(VoteAuthorizeChecked)); }
    if m { return Some(VoteAuthorizeBoth); }
    m := MatchesPair(infos, SystemIx(AllocateWithSeed), StakeIx(StakeSplit));
    if m { return Some(SplitIntoAllocatedSeed); }
    m := MatchesPair(infos, SystemIx(CreateAccount), StakeIx(StakeSplit));
    if m { return Some(SplitIntoCreated); }
    m := MatchesPair(infos, SystemIx(CreateAccountWithSeed), StakeIx(StakeSplit));
    if m { return Some(SplitIntoCreatedSeed); }
    return None;
  }

  method FindTokenOrAgenc(infos: seq<Info>) returns (p: Option<Pattern>)
    requires |infos| == 2
    ensures p.Some? ==> IsPattern(p.value, infos)
    ensures p.None? ==> forall q :: TokenOrAgenc(q) ==> !IsPattern(q, infos)
  {
    var m;
    m := MatchesPair(infos, SystemIx(CreateAccount), TokenIx(InitializeMint));
    if m { return Some(TokenCreateMint); }
    m := MatchesPair(infos, SystemIx(CreateAccount), TokenIx(InitializeAccount));
    if !m { m := MatchesPair(infos, SystemIx(CreateAccount), TokenIx(InitializeAccount2)); }
    if m { return Some(TokenCreateAccount); }
    m := MatchesPair(infos, SystemIx(CreateAccount), TokenIx(InitializeMultisig));
    if m { return Some(TokenCreateMultisig); }
    m := MatchesPair(infos, AssociatedTokenAccountIx, TokenIx(TransferChecked));
    if !m { m := MatchesPair(infos, AssociatedTokenAccountIx, TokenIx(TransferFeeExtension)); }
    if m { return Some(AtaCreateWithTransfer); }
    m := MatchesPair(infos, AgencIx(AgencData.Create), AgencIx(AgencData.Configure));
    if m { return Some(AgencCreateTaskWithReview); }
    return None;
  }

  lemma PairGroups(infos: seq<Info>, p: Pattern)
    requires |infos| == 2 && IsPattern(p, infos)
    ensures CreatesAccount(p) || SetsOrSplits(p) || TokenOrAgenc(p)
  {
  }

  method FindPair(infos: seq<Info>) returns (p: Option<Pattern>)
    requires |infos| == 2
    ensures p.Some? ==> IsPattern(p.value, infos)
    ensures p.None? ==> forall q :: !IsPattern(q, infos)
  {
    p := FindCreate(infos);
    if p.Some? { return; }
    p := FindSetOrSplit(infos);
    if p.Some? { return; }
    p := FindTokenOrAgenc(infos);
    forall q | p.None? ensures !IsPattern(q, infos) {
      if IsPattern(q, infos) { PairGroups(infos, q); }
    }
  }

  method FindTriple(infos: seq<Info>) returns (p: Option<Pattern>)
    requires |infos| == 3
    ensures p.Some? ==> IsPattern(p.value, infos)
    ensures p.None? ==> forall q :: !IsPattern(q, infos)
  {
    var m;
    m := MatchesTriple(infos, SystemIx(CreateAccount), StakeIx(StakeInitialize), StakeIx(StakeDelegate));
    if m { return Some(CreateStakeAndDelegate); }
    m := MatchesTriple(infos, SystemIx(CreateAccountWithSeed), StakeIx(StakeInitialize), StakeIx(StakeDelegate));
    if m { return Some(CreateStakeWithSeedAndDelegate); }
    m := MatchesTriple(infos, SystemIx(Allocate), SystemIx(Assign), StakeIx(StakeSplit));
    if m { return Some(SplitIntoAllocated); }
    m := MatchesTriple(infos, SystemIx(Transfer), SystemIx(AllocateWithSeed), StakeIx(StakeSplit));
    if m { return Some(PrefundedSplitWithSeed); }
    return None;
  }

  /** The switch over the number of instructions. */
  method FindPattern(infos: seq<Info>) returns (p: Option<Pattern>)
    ensures forall q :: p == Some(q) <==> IsPattern(q, infos)
  {
    p := None;
    if |infos| == 1 {
      p := if Printable(infos[0]) then Some(Single) else None;
    } else if |infos| == 2 {
      p := FindPair(infos);
    } else if |infos| == 3 {
      p := FindTriple(infos);
    } else if |infos| == 4 {
      var m := MatchesFour(infos, SystemIx(Transfer), SystemIx(Allocate), SystemIx(Assign), StakeIx(StakeSplit));
      p := if m then Some(PrefundedSplit) else None;
    }
    forall q | p.Some? && IsPattern(q, infos) ensures p == Some(q) {
      PatternsExclude(infos, p.value, q);
    }
  }

  lemma PairsExclude(infos: seq<Info>, p: Pattern, q: Pattern)
    requires |infos| == 2 && IsPattern(p, infos) && IsPattern(q, infos)
    ensures p == q
  {
  }

  /** The patterns exclude each other: whatever the order of the tests, a list is shown as
      one pattern at most. */
  lemma PatternsExclude(infos: seq<Info>, p: Pattern, q: Pattern)
    requires IsPattern(p, infos) && IsPattern(q, infos)
    ensures p == q
  {
    if |infos| == 2 {
      PairsExclude(infos, p, q);
    }
  }

  /** The lists of two and more instructions that are shown, by their last instruction. */
  ghost predicate Grammar(infos: seq<Info>)
    requires |infos| >= 2
  {
    var n, first, last := |infos|, infos[0], infos[|infos| - 1];
    var creates := first == System(CreateAccount) || first == System(CreateAccountWithSeed);
    match last
    case System(kind) => n == 2 && creates && kind == InitializeNonceAccount
    case Vote(kind) =>
      n == 2 && ((creates && kind == VoteInitialize)
                 || (first == last && (kind == VoteAuthorize || kind == VoteAuthorizeChecked)))
    case Token(kind) =>
      n == 2
      && ((first == System(CreateAccount)
           && kind in {InitializeMint, InitializeAccount, InitializeAccount2, InitializeMultisig})
          || (first.AssociatedTokenAccount? && kind in {TransferChecked, TransferFeeExtension}))
    case Agenc(configure) =>
      n == 2 && first.Agenc? && first.agenc.fields.CreateTask? && configure.fields.ConfigureTaskValidation?
    case Stake(kind) =>
      || (n == 2 && creates && kind in {StakeInitialize, StakeInitializeChecked, StakeSplit})
      || (n == 2 && first == last && kind in {StakeAuthorize, StakeAuthorizeChecked})
      || (n == 2 && first == System(AllocateWithSeed) && kind == StakeSplit)
      || (n == 3 && creates && infos[1] == Stake(StakeInitialize) && kind == StakeDelegate)
      || (n == 3 && first == System(Allocate) && infos[1] == System(Assign) && kind == StakeSplit)
      || (n == 3 && first == System(Transfer) && infos[1] == System(AllocateWithSeed) && kind == StakeSplit)
      || (n == 4 && first == System(Transfer) && infos[1] == System(Allocate) && infos[2] == System(Assign)
          && kind == StakeSplit)
    case _ => false
  }

  /** The pattern of a list, by its length and its two ends. */
  function PatternByEnds(n: nat, first: Info, last: Info): Pattern {
    var seeded := first == System(CreateAccountWithSeed);
    match last
    case System(_) => if seeded then CreateNonceAccountWithSeed else CreateNonceAccount
    case Vote(kind) =>
      if kind != VoteInitialize then VoteAuthorizeBoth
      else if seeded then CreateVoteAccountWithSeed else CreateVoteAccount
    case Token(kind) =>
      if first.AssociatedTokenAccount? then AtaCreateWithTransfer
      else if kind == InitializeMint then TokenCreateMint
      else if kind == InitializeMultisig then TokenCreateMultisig else TokenCreateAccount
    case Stake(kind) =>
      if kind == StakeDelegate then if seeded then CreateStakeWithSeedAndDelegate else CreateStakeAndDelegate
      else if kind == StakeAuthorize || kind == StakeAuthorizeChecked then StakeAuthorizeBoth
      else if kind != StakeSplit then if seeded then CreateStakeAccountWithSeed else CreateStakeAccount
      else if n == 4 then PrefundedSplit
      else if n == 3 then if first == System(Transfer) then PrefundedSplitWithSeed else SplitIntoAllocated
      else if seeded then SplitIntoCreatedSeed
      else if first == System(CreateAccount) then SplitIntoCreated else SplitIntoAllocatedSeed
    case _ => AgencCreateTaskWithReview
  }

  lemma GrammarOf(p: Pattern, infos: seq<Info>)
    requires |infos| >= 2 && IsPattern(p, infos)
    ensures Grammar(infos)
  {
  }

  lemma PatternOfGrammar(infos: seq<Info>)
    requires |infos| >= 2 && Grammar(infos)
    ensures IsPattern(PatternByEnds(|infos|, infos[0], infos[|infos| - 1]), infos)
  {
  }

  /** A list is shown as p exactly when it is one instruction of a program with a printer, or
      it is of the grammar and p is the pattern of its ends. */
  lemma PatternListsIff(infos: seq<Info>, p: Pattern)
    ensures IsPattern(p, infos) <==>
              if |infos| <= 1
              then p.Single? && |infos| == 1
                   && (infos[0].System? || infos[0].Stake? || infos[0].Vote? || infos[0].Token?
                       || infos[0].AssociatedTokenAccount? || infos[0].Agenc?)
              else Grammar(infos) && p == PatternByEnds(|infos|, infos[0], infos[|infos| - 1])
  {
    if |infos| >= 2 {
      if Grammar(infos) {
        PatternOfGrammar(infos);
      }
      if IsPattern(p, infos) {
        GrammarOf(p, infos);
        PatternsExclude(infos, p, PatternByEnds(|infos|, infos[0], infos[|infos| - 1]));
      }
    }
  }

  // ---------- compute budget and nonce ----------

  predicate AllBudget(infos: seq<Info>) {
    forall i :: 0 <= i < |infos| ==> infos[i].Budget?
  }

  /** The length of the leading run of compute-budget instructions. */
  function LeadingBudgets(infos: seq<Info>): (n: nat)
    ensures n <= |infos| && AllBudget(infos[..n]) && (n < |infos| ==> !infos[n].Budget?)
  {
    if |infos| == 0 || !infos[0].Budget? then 0
    else
      var n := 1 + LeadingBudgets(infos[1..]);
      assert infos[..n] == [infos[0]] + infos[1..][..n - 1];
      n
  }

  /** What the compute-budget instructions set; a later one overrides an earlier one. */
  function Settings(infos: seq<Info>, count: nat): (r: FeeInfo)
    ensures r.count == count
  {
    if |infos| == 0 then FeeInfo(None, None, count, 0)
    else
      var f := Settings(infos[..|infos| - 1], count);
      match infos[|infos| - 1]
      case Budget(b) =>
        (match b.budget
         case ChangeUnitLimit(n) => f.(limit := Some(n), signatures := b.signatures)
         case ChangeUnitPrice(n) => f.(price := Some(n), signatures := b.signatures)
         case _ => f.(signatures := b.signatures))
      case _ => f
  }

  ghost predicate SetsPrice(info: Info) { info.Budget? && info.info.budget.ChangeUnitPrice? }

  ghost predicate SetsLimit(info: Info) { info.Budget? && info.info.budget.ChangeUnitLimit? }

  ghost predicate LastPriceAt(infos: seq<Info>, k: nat, n: u64) {
    && k < |infos| && SetsPrice(infos[k]) && infos[k].info.budget.price == n
    && forall j :: k < j < |infos| ==> !SetsPrice(infos[j])
  }

  ghost predicate LastLimitAt(infos: seq<Info>, k: nat, n: u32) {
    && k < |infos| && SetsLimit(infos[k]) && infos[k].info.budget.limit == n
    && forall j :: k < j < |infos| ==> !SetsLimit(infos[j])
  }

  /** The price and the limit in force are those set last; there is none exactly when none
      was set. */
  lemma {:induction false} SettingsAreLast(infos: seq<Info>, count: nat)
    ensures var f := Settings(infos, count);
            && (f.price.Some? ==> exists k :: LastPriceAt(infos, k, f.price.value))
            && (f.price.None? ==> forall k :: 0 <= k < |infos| ==> !SetsPrice(infos[k]))
            && (f.limit.Some? ==> exists k :: LastLimitAt(infos, k, f.limit.value))
            && (f.limit.None? ==> forall k :: 0 <= k < |infos| ==> !SetsLimit(infos[k]))
    decreases |infos|
  {
    if |infos| > 0 {
      var m := |infos| - 1;
      SettingsAreLast(infos[..m], count);
      var f, g := Settings(infos, count), Settings(infos[..m], count);
      if SetsPrice(infos[m]) {
        assert LastPriceAt(infos, m, f.price.value);
      } else if g.price.Some? {
        var k :| LastPriceAt(infos[..m], k, g.price.value);
        assert LastPriceAt(infos, k, f.price.value);
      }
      if SetsLimit(infos[m]) {
        assert LastLimitAt(infos, m, f.limit.value);
      } else if g.limit.Some? {
        var k :| LastLimitAt(infos[..m], k, g.limit.value);
        assert LastLimitAt(infos, k, f.limit.value);
      }
    }
  }

  /** The price in force in a list: the last one set, or none. */
  ghost predicate PriceIn(infos: seq<Info>, price: Option<u64>) {
    match price
    case None => forall k :: 0 <= k < |infos| ==> !SetsPrice(infos[k])
    case Some(n) => exists k :: LastPriceAt(infos, k, n)
  }

  ghost predicate LimitIn(infos: seq<Info>, limit: Option<u32>) {
    match limit
    case None => forall k :: 0 <= k < |infos| ==> !SetsLimit(infos[k])
    case Some(n) => exists k :: LastLimitAt(infos, k, n)
  }

  /** Instructions of other kinds around a run do not change what is in force. */
  lemma {:induction false} SettingsAround(list: seq<Info>, before: seq<Info>, run: seq<Info>, after: seq<Info>,
                                          price: Option<u64>, limit: Option<u32>)
    requires list == before + run + after && PriceIn(run, price) && LimitIn(run, limit)
    requires forall k :: 0 <= k < |before| ==> !before[k].Budget?
    requires forall k :: 0 <= k < |after| ==> !after[k].Budget?
    ensures PriceIn(list, price) && LimitIn(list, limit)
  {
    assert forall k :: 0 <= k < |before| ==> list[k] == before[k];
    assert forall k :: |before| <= k < |before| + |run| ==> list[k] == run[k - |before|];
    assert forall k :: |before| + |run| <= k < |list| ==> list[k] == after[k - |before| - |run|];
    if price.Some? {
      var k :| LastPriceAt(run, k, price.value);
      assert LastPriceAt(list, |before| + k, price.value);
    }
    if limit.Some? {
      var k :| LastLimitAt(run, k, limit.value);
      assert LastLimitAt(list, |before| + k, limit.value);
    }
  }

  /** How many instructions are taken off, and the settings they make. A single
      instruction is left alone. */
  function Stripped(infos: seq<Info>): nat {
    if |infos| > 1 then LeadingBudgets(infos) else 0
  }

  function FeeOf(infos: seq<Info>): FeeInfo {
    if |infos| > 1 then Settings(infos[..LeadingBudgets(infos)], |infos|) else FeeInfo(None, None, 0, 0)
  }

  /** preprocess_compute_budget_instructions: always looks at the first instruction left. */
  method PreprocessComputeBudgetInstructions(infos: seq<Info>) returns (start: nat, fee: FeeInfo)
    ensures start == Stripped(infos) && fee == FeeOf(infos)
  {
    start, fee := 0, FeeInfo(None, None, 0, 0);
    if |infos| > 1 {
      fee := FeeInfo(None, None, |infos|, 0);
      for infoIdx := 0 to |infos|
        invariant 0 <= start <= infoIdx && AllBudget(infos[..start])
        invariant start < infoIdx ==> !infos[start].Budget?
        invariant fee == Settings(infos[..start], |infos|)
      {
        var info := infos[start];
        if info.Budget? {
          SettingsStep(infos, start, |infos|);
          fee := fee.(signatures := info.info.signatures);
          if info.info.budget.ChangeUnitLimit? {
            fee := fee.(limit := Some(info.info.budget.limit));
          }
          if info.info.budget.ChangeUnitPrice? {
            fee := fee.(price := Some(info.info.budget.price));
          }
          start := start + 1;
        }
      }
      RunIsMaximal(infos, start);
    }
  }

  lemma SettingsStep(infos: seq<Info>, k: nat, count: nat)
    requires k < |infos|
    ensures infos[..k + 1][..k] == infos[..k] && infos[..k + 1][k] == infos[k]
    ensures AllBudget(infos[..k]) && infos[k].Budget? ==> AllBudget(infos[..k + 1])
  {
  }

  lemma RunIsMaximal(infos: seq<Info>, k: nat)
    requires k <= |infos| && AllBudget(infos[..k]) && (k < |infos| ==> !infos[k].Budget?)
    ensures LeadingBudgets(infos) == k
  {
    var n := LeadingBudgets(infos);
    BudgetsAt(infos, 0, k);
    BudgetsAt(infos, 0, n);
  }

  lemma BudgetsAt(infos: seq<Info>, a: nat, b: nat)
    requires a <= b <= |infos|
    ensures AllBudget(infos[a..b]) <==> forall i :: a <= i < b ==> infos[i].Budget?
    ensures a == 0 ==> infos[..b] == infos[a..b]
  {
    assert forall i :: a <= i < b ==> infos[i] == infos[a..b][i - a];
  }

  // ---------- print_transaction ----------

  /** What a transaction is shown as: the nonce that was skipped, the fee, and the
      instructions of the pattern. A zero fee is not shown. */
  datatype Screen = Screen(nonce: bool, budgets: nat, fee: u64, pattern: Pattern, infos: seq<Info>)

  function HasNonce(infos: seq<Info>): bool {
    |infos| > 1 && infos[0] == System(AdvanceNonceAccount)
  }

  function AfterNonce(infos: seq<Info>): seq<Info> {
    if HasNonce(infos) then infos[1..] else infos
  }

  /** The instructions that have to be a pattern. */
  function Core(infos: seq<Info>): seq<Info> {
    AfterNonce(infos)[Stripped(AfterNonce(infos))..]
  }

  function FeeShown(f: FeeInfo, p: Pattern): Option<nat> {
    var fee :- if f.limit.Some? || f.price.Some? then MaxFee(f) else Some(0);
    Some(if p.AtaCreateWithTransfer? then fee + TOKEN_ACCOUNT_RENT else fee)
  }

  /** Shown as the screen says: the handlers of the patterns are a parameter. */
  ghost predicate ShownAs(infos: seq<Info>, prints: (Pattern, seq<Info>) -> bool, s: Screen) {
    && s.nonce == HasNonce(infos) && s.budgets == Stripped(AfterNonce(infos)) && s.infos == Core(infos)
    && IsPattern(s.pattern, s.infos) && prints(s.pattern, s.infos)
    && FeeShown(FeeOf(AfterNonce(infos)), s.pattern) == Some(s.fee)
  }

  /** The fee is computed only when a limit or a price is set. */
  method FeeIfSet(f: FeeInfo) returns (rc: int, fee: u64)
    requires f.count <= MAX_INSTRUCTIONS
    ensures rc == 0 <==> (f.limit.Some? || f.price.Some? ==> MaxFee(f).Some?)
    ensures rc == 0 ==> fee == if f.limit.Some? || f.price.Some? then MaxFee(f).value else 0
    ensures rc == 0 ==> fee + TOKEN_ACCOUNT_RENT <= UINT64_MAX
  {
    rc, fee := 0, 0;
    if f.limit.Some? || f.price.Some? {
      rc, fee := CalculateMaxFee(f);
      if rc == 0 {
        FeeLeavesRoom(f);
      }
    }
  }

  /** print_transaction_nonce_processed */
  method PrintTransactionNonceProcessed(infos: seq<Info>, prints: (Pattern, seq<Info>) -> bool)
      returns (rc: int, budgets: nat, fee: u64, pattern: Pattern)
    requires |infos| <= MAX_INSTRUCTIONS
    ensures rc == 0 ==> budgets == Stripped(infos) && IsPattern(pattern, infos[budgets..])
                        && prints(pattern, infos[budgets..]) && FeeShown(FeeOf(infos), pattern) == Some(fee)
    ensures rc != 0 ==> forall p :: IsPattern(p, infos[Stripped(infos)..]) && prints(p, infos[Stripped(infos)..]) ==>
                                      FeeShown(FeeOf(infos), p).None?
  {
    var f;
    fee, pattern := 0, Single;
    budgets, f := PreprocessComputeBudgetInstructions(infos);
    var rest := infos[budgets..];
    rc, fee := FeeIfSet(f);
    if rc != 0 {
      return -1, budgets, fee, pattern;
    }
    var p := FindPattern(rest);
    if p.None? {
      return -1, budgets, fee, pattern;
    }
    pattern := p.value;
    if pattern.AtaCreateWithTransfer? {
      fee := Wrap64(fee + TOKEN_ACCOUNT_RENT);
    }
    rc := if prints(pattern, rest) then 0 else -1;
  }

  /** print_transaction */
  method PrintTransaction(infos: seq<Info>, prints: (Pattern, seq<Info>) -> bool) returns (r: Option<Screen>)
    requires |infos| <= MAX_INSTRUCTIONS
    ensures r.Some? ==> ShownAs(infos, prints, r.value)
    ensures r.None? ==> forall s :: !ShownAs(infos, prints, s)
  {
    var rest := infos;
    if |infos| > 1 && infos[0] == System(AdvanceNonceAccount) {
      rest := infos[1..];
    }
    var rc, budgets, fee, pattern := PrintTransactionNonceProcessed(rest, prints);
    if rc != 0 {
      return None;
    }
    r := Some(Screen(HasNonce(infos), budgets, fee, pattern, rest[budgets..]));
  }

  // ---------- nothing hidden ----------

  /** At most one nonce advance, then compute-budget instructions, then a known pattern. */
  ghost predicate Shape(infos: seq<Info>, a: nat, b: nat, p: Pattern) {
    && a <= 1 && a <= b <= |infos| && (a == 1 ==> infos[0] == System(AdvanceNonceAccount))
    && AllBudget(infos[a..b]) && IsPattern(p, infos[b..])
  }

  /** A pattern has no compute-budget instruction in it, and starts with a nonce advance
      only when it is that alone. */
  lemma PatternContents(p: Pattern, infos: seq<Info>)
    requires IsPattern(p, infos)
    ensures 1 <= |infos| <= 4 && forall i :: 0 <= i < |infos| ==> Printable(infos[i])
    ensures |infos| > 1 ==> infos[0] != System(AdvanceNonceAccount)
  {
  }

  /** The instructions left after stripping form a pattern exactly when the list is a
      nonce advance or not, compute-budget instructions, and a known pattern; so a
      compute-budget instruction anywhere else refuses the transaction. */
  lemma CoreIff(infos: seq<Info>, p: Pattern)
    ensures IsPattern(p, Core(infos)) <==> exists a, b :: Shape(infos, a, b, p)
  {
    var rest := AfterNonce(infos);
    var a0 := if HasNonce(infos) then 1 else 0;
    var n := Stripped(rest);
    if IsPattern(p, Core(infos)) {
      assert infos[a0..] == rest;
      assert infos[a0..a0 + n] == rest[..n] && infos[a0 + n..] == rest[n..];
      assert Shape(infos, a0, a0 + n, p);
    }
    if a, b :| Shape(infos, a, b, p) {
      CoreOfShape(infos, a, b, p);
    }
  }

  lemma CoreOfShape(infos: seq<Info>, a: nat, b: nat, p: Pattern)
    requires Shape(infos, a, b, p)
    ensures Core(infos) == infos[b..]
  {
    PatternContents(p, infos[b..]);
    assert infos[b] == infos[b..][0];
    BudgetsAt(infos, a, b);
    if HasNonce(infos) {
      assert a == 1;
      var rest := infos[1..];
      BudgetsAt(rest, 0, b - 1);
      assert rest[b - 1..] == infos[b..];
      if |rest| > 1 {
        RunIsMaximal(rest, b - 1);
      }
    } else {
      BudgetsAt(infos, 0, b);
      if |infos| > 1 {
        RunIsMaximal(infos, b);
      }
    }
  }

  /** Nothing is hidden: what is shown, the nonce and the compute-budget instructions are
      the whole list. */
  lemma NothingHidden(infos: seq<Info>, prints: (Pattern, seq<Info>) -> bool, s: Screen)
    requires ShownAs(infos, prints, s)
    ensures infos == (if s.nonce then [System(AdvanceNonceAccount)] else []) + AfterNonce(infos)[..s.budgets] + s.infos
    ensures AllBudget(AfterNonce(infos)[..s.budgets])
    ensures 1 <= |s.infos| <= 4 && forall i :: 0 <= i < |s.infos| ==> Printable(s.infos[i])
  {
    PatternContents(s.pattern, s.infos);
    Rejoined(infos, AfterNonce(infos), s.budgets);
    if |AfterNonce(infos)| > 1 { BudgetsAt(AfterNonce(infos), 0, s.budgets); }
  }

  lemma Rejoined(infos: seq<Info>, rest: seq<Info>, n: nat)
    requires rest == AfterNonce(infos) && n <= |rest|
    ensures infos == (if HasNonce(infos) then [System(AdvanceNonceAccount)] else []) + rest[..n] + rest[n..]
  {
    assert rest == rest[..n] + rest[n..];
    if HasNonce(infos) { assert infos == [infos[0]] + infos[1..]; }
  }

  lemma {:induction false} RunSettings(rest: seq<Info>, n: nat)
    requires n == Stripped(rest)
    ensures PriceIn(rest[..n], FeeOf(rest).price) && LimitIn(rest[..n], FeeOf(rest).limit)
  {
    if |rest| > 1 {
      SettingsAreLast(rest[..n], |rest|);
    }
  }

  /** The fee of a list that is shown is that of the price and limit in force in all of it. */
  lemma {:induction false} SettingsInForce(infos: seq<Info>, prints: (Pattern, seq<Info>) -> bool, s: Screen)
    requires ShownAs(infos, prints, s)
    ensures PriceIn(infos, FeeOf(AfterNonce(infos)).price) && LimitIn(infos, FeeOf(AfterNonce(infos)).limit)
    ensures |AfterNonce(infos)| == s.budgets + |s.infos|
  {
    var rest := AfterNonce(infos);
    NothingHidden(infos, prints, s);
    RunSettings(rest, s.budgets);
    SettingsAround(infos, if s.nonce then [System(AdvanceNonceAccount)] else [], rest[..s.budgets], s.infos,
                   FeeOf(rest).price, FeeOf(rest).limit);
  }

  /** How many entries of the list come before those of the pattern. */
  function Skipped(s: Screen): nat { s.budgets + if s.nonce then 1 else 0 }

  /** The entry at place m is the nonce advance, a compute-budget instruction, or one of the
      instructions shown, at its place. */
  ghost predicate Accounted(info: Info, m: nat, s: Screen) {
    if m < Skipped(s) then if m == 0 && s.nonce then info == System(AdvanceNonceAccount) else info.Budget?
    else m - Skipped(s) < |s.infos| && info == s.infos[m - Skipped(s)]
  }

  lemma AllAccounted(infos: seq<Info>, prints: (Pattern, seq<Info>) -> bool, s: Screen)
    requires ShownAs(infos, prints, s)
    ensures |infos| == Skipped(s) + |s.infos|
    ensures forall m :: 0 <= m < |infos| ==> Accounted(infos[m], m, s)
  {
    NothingHidden(infos, prints, s);
    AccountedParts(infos, if s.nonce then [System(AdvanceNonceAccount)] else [], AfterNonce(infos)[..s.budgets], s);
  }

  lemma AccountedParts(infos: seq<Info>, nonce: seq<Info>, run: seq<Info>, s: Screen)
    requires nonce == (if s.nonce then [System(AdvanceNonceAccount)] else []) && |run| == s.budgets && AllBudget(run)
    requires infos == nonce + run + s.infos
    ensures |infos| == Skipped(s) + |s.infos|
    ensures forall m :: 0 <= m < |infos| ==> Accounted(infos[m], m, s)
  {
  }

  /** The m-th instruction shown is the entry p of the list. */
  lemma PlaceShown(infos: seq<Info>, prints: (Pattern, seq<Info>) -> bool, s: Screen, m: nat, p: nat)
    requires ShownAs(infos, prints, s) && m < |s.infos| && p == Skipped(s) + m
    ensures p < |infos| && infos[p] == s.infos[m]
  {
    AllAccounted(infos, prints, s);
    assert Accounted(infos[p], p, s);
  }

  lemma LateBudgetNoShape(infos: seq<Info>, i: nat, j: nat, a: nat, b: nat, p: Pattern)
    requires i < j < |infos| && infos[j].Budget? && !infos[i].Budget?
    requires i == 0 ==> infos[0] != System(AdvanceNonceAccount)
    ensures !Shape(infos, a, b, p)
  {
    if a <= b <= |infos| && IsPattern(p, infos[b..]) {
      PatternContents(p, infos[b..]);
      BudgetsAt(infos, a, b);
      if j >= b {
        assert infos[j] == infos[b..][j - b];
      }
    }
  }

  /** A compute-budget instruction after one of another kind, other than a nonce advance at
      the start, refuses the transaction. */
  lemma LateBudgetRefused(infos: seq<Info>, i: nat, j: nat, prints: (Pattern, seq<Info>) -> bool, s: Screen)
    requires i < j < |infos| && infos[j].Budget? && !infos[i].Budget?
    requires i == 0 ==> infos[0] != System(AdvanceNonceAccount)
    ensures !ShownAs(infos, prints, s)
  {
    CoreIff(infos, s.pattern);
    forall a, b ensures !Shape(infos, a, b, s.pattern) {
      LateBudgetNoShape(infos, i, j, a, b, s.pattern);
    }
  }
}
