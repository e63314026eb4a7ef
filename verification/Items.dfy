/** What the printers of libsol/transaction_printers.c and of the programs put into the
    summary: for each pattern its primary item and its general items, in order. */
module Items {
  import opened Bytes
  import opened Dispatch
  import opened Summary
  import AgencData
  import Agenc

  type UsedItem = i: Item | i.Used() witness Item(Text, "")

  /** The configuration, and what the printers look at in the instructions whose fields are
      not modelled. signerActs says that the key that authorises the transaction is the
      signer's, signerFunds and signerHolds the same of the funder and of the custodian. */
  datatype View = View(
    expert: bool, fullPrint: bool, toTokenAccount: bool,
    signerActs: bool, signerFunds: bool, signerHolds: bool,
    knownOwner: bool, knownValidator: bool, oneAuthority: bool, forWithdrawer: bool, inOrder: bool,
    lockupTime: bool, lockupEpoch: bool, newCustodian: bool, custodian: bool,
    freezeAuthority: bool, clearsAuthority: bool, multisig: bool, properQuorum: bool,
    transferFee: bool, unknownMint: bool)

  /** One primary item and the general items. */
  datatype Drawing = Drawing(primary: UsedItem, general: seq<UsedItem>)

  function When(b: bool, items: seq<UsedItem>): seq<UsedItem> { if b then items else [] }

  // print_config_show_authority, of the three keys.

  predicate ShowsAuthority(v: View) { v.expert || !v.signerActs }

  predicate ShowsFunder(v: View) { v.expert || !v.signerFunds }

  predicate ShowsCustodian(v: View) { v.expert || !v.signerHolds }

  function AuthorizedBy(v: View): seq<UsedItem> {
    When(ShowsAuthority(v), [Item(Pubkey, "Authorized by")])
  }

  function BaseAndSeed(v: View): seq<UsedItem> {
    When(v.expert, [Item(Pubkey, "Base"), Item(SizedString, "Seed")])
  }

  // ---------- the system program ----------

  /** print_system_create_account_info after its primary item. */
  function CreateItems(v: View, displayOwner: bool): seq<UsedItem> {
    [Item(Amount, "Deposit")] + When(ShowsFunder(v), [Item(Pubkey, "From")])
    + When(displayOwner && !v.knownOwner, [Item(U64, "Data size"), Item(Pubkey, "Owner program")])
  }

  /** print_system_create_account_with_seed_info after its primary item. */
  function CreateWithSeedItems(v: View, displayOwner: bool): seq<UsedItem> {
    CreateItems(v, displayOwner) + BaseAndSeed(v)
  }

  const NEW_AUTHORITY: UsedItem := Item(Pubkey, "New authority")

  /** print_system_prefund_for_split */
  function PrefundItems(v: View): seq<UsedItem> {
    When(v.expert, [Item(Amount, "Prefund"), Item(Pubkey, "Prefunder")])
  }

  /** print_system_info */
  function SystemDrawing(kind: SystemKind, v: View): Option<Drawing> {
    match kind
    case Transfer =>
      Some(Drawing(Item(Amount, "Amount"),
                   When(ShowsAuthority(v), [Item(Pubkey, "Sender")]) + [Item(Pubkey, "To")]))
    case AdvanceNonceAccount => Some(Drawing(Item(Pubkey, "Advance nonce"), AuthorizedBy(v)))
    case CreateAccount => Some(Drawing(Item(Pubkey, "Create account"), CreateItems(v, true)))
    case CreateAccountWithSeed => Some(Drawing(Item(Pubkey, "Create account"), CreateWithSeedItems(v, true)))
    case InitializeNonceAccount => Some(Drawing(Item(Pubkey, "Init nonce acct"), [NEW_AUTHORITY]))
    case WithdrawNonceAccount =>
      Some(Drawing(Item(Amount, "Nonce withdraw"), [Item(Pubkey, "From"), Item(Pubkey, "To")] + AuthorizedBy(v)))
    case AuthorizeNonceAccount => Some(Drawing(Item(Pubkey, "Set nonce auth"), [NEW_AUTHORITY] + AuthorizedBy(v)))
    case Assign => Some(Drawing(Item(Pubkey, "Assign acct"), [Item(Pubkey, "To program")]))
    case Allocate => Some(Drawing(Item(Pubkey, "Allocate acct"), [Item(U64, "Data size")]))
    case AllocateWithSeed => Some(Drawing(Item(Pubkey, "Allocate acct"), [Item(U64, "Data size")] + BaseAndSeed(v)))
    case AssignWithSeed => None
  }

  // ---------- the stake program ----------

  /** The authorities that an instruction or a pair of them sets; title names the first. */
  function Authorities(v: View, one: string, first: string): seq<UsedItem> {
    if v.oneAuthority then [Item(Pubkey, one)] else [Item(Pubkey, first), Item(Pubkey, "New withdraw auth")]
  }

  /** print_stake_initialize_info after its primary item. */
  function StakeInitializeItems(v: View): seq<UsedItem> {
    Authorities(v, "New authority", "New stake auth")
    + if v.lockupTime || v.lockupEpoch then
        When(v.lockupTime, [Item(Timestamp, "Lockup time")]) + When(v.lockupEpoch, [Item(U64, "Lockup epoch")])
        + [Item(Pubkey, "Lockup authority")]
      else When(v.expert, [Item(Text, "Lockup")])
  }

  /** print_delegate_stake_info after its primary item; two validators are shown by name. */
  function DelegateItems(v: View): seq<UsedItem> {
    AuthorizedBy(v) + [Item(if v.knownValidator then Text else Pubkey, "Vote account")]
  }

  const FROM_TO: seq<UsedItem> := [Item(Pubkey, "From"), Item(Pubkey, "To")]

  /** print_stake_split_info1, what comes between, and print_stake_split_info2. */
  function SplitDrawing(v: View, before: seq<UsedItem>, between: seq<UsedItem>): Option<Drawing> {
    Some(Drawing(Item(Amount, "Split stake"), before + FROM_TO + between + AuthorizedBy(v)))
  }

  /** print_stake_info */
  function StakeDrawing(kind: StakeKind, v: View): Option<Drawing> {
    match kind
    case StakeDelegate => Some(Drawing(Item(Pubkey, "Delegated from"), DelegateItems(v)))
    case StakeInitialize => Some(Drawing(Item(Pubkey, "Init stake acct"), StakeInitializeItems(v)))
    case StakeInitializeChecked => Some(Drawing(Item(Pubkey, "Init stake acct"), StakeInitializeItems(v)))
    case StakeWithdraw =>
      Some(Drawing(Item(Amount, "Amount"),
                   [Item(Pubkey, "From stake account"), Item(Pubkey, "To")] + AuthorizedBy(v)))
    case StakeAuthorize => Some(StakeAuthorizeDrawing(v))
    case StakeAuthorizeChecked => Some(StakeAuthorizeDrawing(v))
    case StakeDeactivate => Some(Drawing(Item(Pubkey, "Stake account"), AuthorizedBy(v)))
    case StakeSetLockup => Some(SetLockupDrawing(v))
    case StakeSetLockupChecked => Some(SetLockupDrawing(v))
    case StakeSplit => SplitDrawing(v, [], [])
    case StakeMerge => Some(Drawing(Item(Pubkey, "Merge"), [Item(Pubkey, "Into")] + AuthorizedBy(v)))
    case StakeAuthorizeWithSeed => None
    case StakeAuthorizeCheckedWithSeed => None
  }

  /** print_stake_authorize_info */
  function StakeAuthorizeDrawing(v: View): Drawing {
    Drawing(Item(Pubkey, "Set stake auth"),
            [Item(Pubkey, if v.forWithdrawer then "New withdraw auth" else "New stake auth")] + AuthorizedBy(v)
            + When(v.custodian && ShowsCustodian(v), [Item(Pubkey, "Custodian")]))
  }

  /** print_stake_set_lockup_info, where the custodian authorises. */
  function SetLockupDrawing(v: View): Drawing {
    Drawing(Item(Pubkey, "Set lockup"),
            When(v.lockupTime, [Item(Timestamp, "Time")]) + When(v.lockupEpoch, [Item(U64, "Epoch")])
            + When(v.newCustodian, [NEW_AUTHORITY]) + AuthorizedBy(v))
  }

  // ---------- the vote program ----------

  /** print_vote_initialize_info after its primary item. */
  function VoteInitializeItems(): seq<UsedItem> {
    [Item(Pubkey, "Validator ID"), Item(Pubkey, "New vote auth"), Item(Pubkey, "New withdraw auth"),
     Item(U64, "Commission")]
  }

  /** print_vote_authorize_info */
  function VoteAuthorizeDrawing(v: View): Drawing {
    Drawing(Item(Pubkey, "Set vote auth"),
            [Item(Pubkey, if v.forWithdrawer then "New withdraw auth" else "New vote auth")] + AuthorizedBy(v))
  }

  /** print_vote_info */
  function VoteDrawing(kind: VoteKind, v: View): Option<Drawing> {
    match kind
    case VoteInitialize => Some(Drawing(Item(Pubkey, "Init vote acct"), VoteInitializeItems()))
    case VoteWithdraw => Some(Drawing(Item(Amount, "Vote withdraw"), FROM_TO + AuthorizedBy(v)))
    case VoteAuthorize => Some(VoteAuthorizeDrawing(v))
    case VoteAuthorizeChecked => Some(VoteAuthorizeDrawing(v))
    case VoteUpdateValidatorId =>
      Some(Drawing(Item(Pubkey, "Update validator"), [Item(Pubkey, "New validator ID")] + AuthorizedBy(v)))
    case VoteUpdateCommission =>
      Some(Drawing(Item(Pubkey, "Update commission"), [Item(U64, "Commission")] + AuthorizedBy(v)))
    case VoteVote => None
    case VoteSwitchVote => None
  }

  // ---------- the token program ----------

  const TOKEN_ADDRESS: UsedItem := Item(Pubkey, "Token address")
  const FROM_TOKEN_ACCOUNT: UsedItem := Item(Pubkey, "From (token account)")
  const TO_TOKEN_ACCOUNT: UsedItem := Item(Pubkey, "To (token account)")

  /** print_spl_token_sign: the item of a single owner is taken but set only when shown. */
  function SignItems(v: View): seq<UsedItem> {
    if v.multisig then [Item(Pubkey, "Owner"), Item(U64, "Signers")]
    else When(ShowsAuthority(v), [Item(Pubkey, "Owner")])
  }

  /** summary_item_set_multisig_m_of_n: the item stays unset when more signatures are asked
      for than there are signers. */
  function QuorumItems(v: View): seq<UsedItem> { When(v.properQuorum, [Item(Text, "Required signers")]) }

  /** print_spl_token_transfer_info. The owner's address is at hand, since a transfer is
      recognised only with it. Only the extension has a fee. */
  function TransferDrawing(v: View, withFee: bool): Drawing {
    Drawing(Item(TokenAmount, "Amount"),
            When(v.fullPrint || v.unknownMint, [TOKEN_ADDRESS])
            + When(v.fullPrint || !v.toTokenAccount, [Item(Text, "To")])
            + When(v.fullPrint || v.toTokenAccount, [TO_TOKEN_ACCOUNT])
            + When(withFee && v.transferFee, [Item(TokenAmount, "Token transfer fee")])
            + SignItems(v))
  }

  /** The printers of instructions that set up an account. */
  function SetUpDrawing(kind: TokenKind, v: View): Option<Drawing> {
    match kind
    case InitializeMint =>
      Some(Drawing(Item(Pubkey, "Init mint"),
                   [Item(Pubkey, "Mint authority"), Item(U64, "Decimals")]
                   + When(v.freezeAuthority, [Item(Pubkey, "Freeze authority")])))
    case InitializeAccount => Some(Drawing(Item(Pubkey, "Init acct"), [Item(Pubkey, "Owner"), TOKEN_ADDRESS]))
    case InitializeAccount2 => Some(Drawing(Item(Pubkey, "Init acct"), [Item(Pubkey, "Owner"), TOKEN_ADDRESS]))
    case InitializeMultisig => Some(Drawing(Item(Pubkey, "Init multisig"), QuorumItems(v)))
    case SyncNative => Some(Drawing(Item(Pubkey, "Sync native account"), []))
    case _ => None
  }

  /** The printers of the other instructions, which end with who signs. */
  function SignedDrawing(kind: TokenKind, v: View): Option<Drawing> {
    match kind
    case Revoke => Some(Drawing(Item(Pubkey, "Revoke delegate"), SignItems(v)))
    case SetAuthority =>
      Some(Drawing(Item(Pubkey, if v.clearsAuthority then "Clear authority" else "Set authority"),
                   [Item(Text, "Type")] + When(!v.clearsAuthority, [Item(Pubkey, "Authority")]) + SignItems(v)))
    case CloseAccount =>
      Some(Drawing(Item(Pubkey, "Close token account"), [Item(Pubkey, "Withdraw to")] + SignItems(v)))
    case FreezeAccount =>
      Some(Drawing(Item(Pubkey, "Freeze token account"), When(v.expert, [TOKEN_ADDRESS]) + SignItems(v)))
    case ThawAccount =>
      Some(Drawing(Item(Pubkey, "Thaw token account"), When(v.expert, [TOKEN_ADDRESS]) + SignItems(v)))
    case ApproveChecked =>
      Some(Drawing(Item(Pubkey, "Approve delegate"),
                   [Item(TokenAmount, "Allowance"), TOKEN_ADDRESS, FROM_TOKEN_ACCOUNT] + SignItems(v)))
    case MintToChecked =>
      Some(Drawing(Item(TokenAmount, "Mint tokens"), [TOKEN_ADDRESS, TO_TOKEN_ACCOUNT] + SignItems(v)))
    case BurnChecked =>
      Some(Drawing(Item(TokenAmount, "Burn tokens"), [TOKEN_ADDRESS, FROM_TOKEN_ACCOUNT] + SignItems(v)))
    case _ => None
  }

  /** print_spl_token_info; the extensions that are not transfers with a fee and the
      deprecated instructions have no printer. */
  function TokenDrawing(kind: TokenKind, v: View): Option<Drawing> {
    match kind
    case TransferChecked => Some(TransferDrawing(v, false))
    case TransferFeeExtension => Some(TransferDrawing(v, true))
    case OtherToken(_) => None
    case _ => if SetUpDrawing(kind, v).Some? then SetUpDrawing(kind, v) else SignedDrawing(kind, v)
  }

  // ---------- AgenC ----------

  const PROGRAM: UsedItem := Item(Pubkey, "Program")
  const TASK: UsedItem := Item(Pubkey, "Task")
  const WORKER: UsedItem := Item(Pubkey, "Worker")
  const WORKER_AUTHORITY: UsedItem := Item(Pubkey, "Worker auth")
  const CREATOR: UsedItem := Item(Pubkey, "Creator")
  const SUBMISSION: UsedItem := Item(Pubkey, "Submission")

  /** The item that names the action. */
  const ACTION: UsedItem := Item(Text, "AgenC action")

  /** print_create_task_fields */
  function CreateTaskItems(t: AgencData.CreateTail): seq<UsedItem> {
    (if t.rewardMint.Some? then [Item(U64, "Reward (token base units)"), Item(Pubkey, "Token mint")]
     else [Item(Amount, "Reward")])
    + [TASK, CREATOR, Item(Hash, "Content hash"), Item(Timestamp, "Deadline"),
       Item(U64, "Max workers")]
    + When(t.taskType != 0, [Item(U64, "Task type")])
    + [Item(U64, "Min reputation"), PROGRAM]
  }

  /** print_agenc_register_agent_info */
  function RegisterItems(hasUri: bool): seq<UsedItem> {
    [Item(Amount, "Stake"), Item(Pubkey, "Agent"), Item(Pubkey, "Authority"), Item(U64, "Capabilities"),
     Item(SizedString, "Endpoint")]
    + When(hasUri, [Item(SizedString, "Metadata URI")]) + [PROGRAM]
  }

  /** print_agenc_configure_task_validation_info */
  function ConfigureItems(hasAttestor: bool): seq<UsedItem> {
    [TASK, Item(U64, "Mode"), Item(I64, "Review window"), Item(U64, "Validator quorum")]
    + When(hasAttestor, [Item(Pubkey, "Attestor")]) + [PROGRAM]
  }

  /** print_agenc_set_task_job_spec_info */
  function JobSpecItems(): seq<UsedItem> {
    [Item(Hash, "Job spec hash"), TASK, CREATOR, Item(SizedString, "Job spec URI"), PROGRAM]
  }

  /** print_agenc_claim_task_with_job_spec_info */
  function ClaimItems(): seq<UsedItem> {
    [TASK, WORKER, Item(Pubkey, "Authority"), Item(Pubkey, "Claim"), PROGRAM]
  }

  /** print_agenc_submit_task_result_info */
  function SubmitItems(hasArtifact: bool): seq<UsedItem> {
    [Item(Hash, "Proof hash"), TASK, WORKER, SUBMISSION,
     if hasArtifact then Item(Hash, "Artifact SHA-256") else Item(Text, "Result data"), PROGRAM]
  }

  /** print_agenc_accept_task_result_info */
  function AcceptItems(): seq<UsedItem> {
    [Item(Text, "Reward"), TASK, WORKER, WORKER_AUTHORITY, CREATOR, Item(Pubkey, "Treasury"), PROGRAM]
  }

  /** print_agenc_reject_task_result_info */
  function RejectItems(): seq<UsedItem> {
    [Item(Hash, "Rejection hash"), TASK, WORKER, WORKER_AUTHORITY, CREATOR, SUBMISSION, PROGRAM]
  }

  /** print_agenc_cancel_task_info */
  function CancelItems(): seq<UsedItem> {
    [Item(Text, "Refund"), TASK, Item(Pubkey, "Authority"), Item(Pubkey, "Escrow"), Item(U64, "Worker claims"),
     PROGRAM]
  }

  /** print_agenc_expire_claim_info: both optional accounts are there. */
  function ExpireItems(): seq<UsedItem> {
    [TASK, Item(Pubkey, "Claim"), WORKER, Item(Pubkey, "Authority"), Item(Pubkey, "Rent recipient"),
     Item(Pubkey, "Validation"), SUBMISSION, PROGRAM]
  }

  function AgencItems(a: Agenc.AgencInfo): seq<UsedItem> {
    match a.fields
    case RegisterAgent(_, _, _, uri, _) => RegisterItems(uri.Some?)
    case CreateTask(_, tail) => CreateTaskItems(tail)
    case ConfigureTaskValidation(_, _, _, attestor) => ConfigureItems(attestor.Some?)
    case SetTaskJobSpec(_, _) => JobSpecItems()
    case ClaimTaskWithJobSpec => ClaimItems()
    case SubmitTaskResult(_, _) => SubmitItems(a.artifactHash.Some?)
    case AcceptTaskResult => AcceptItems()
    case RejectTaskResult(_) => RejectItems()
    case CancelTask => CancelItems()
    case ExpireClaim => ExpireItems()
  }

  function Account(a: Agenc.AgencInfo, k: nat): Option<seq<byte>> {
    if k < |a.accounts| then Some(a.accounts[k]) else None
  }

  /** The checks of print_agenc_create_task_with_review_info: one task, one creator, and a
      review by the creator alone. */
  predicate Reviewable(create: Agenc.AgencInfo, configure: Agenc.AgencInfo) {
    && create.fields.CreateTask? && configure.fields.ConfigureTaskValidation?
    && Account(create, 0) == Account(configure, 0) && Account(create, 6) == Account(configure, 5)
    && configure.fields.mode == 1 && configure.fields.quorum == 0 && configure.fields.attestor.None?
  }

  /** print_agenc_create_task_with_review_info */
  function ReviewedTaskDrawing(create: Agenc.AgencInfo, configure: Agenc.AgencInfo): Option<Drawing> {
    if Reviewable(create, configure) then
      Some(Drawing(ACTION, CreateTaskItems(create.fields.tail) + [Item(I64, "Review window")]))
    else None
  }

  // ---------- the patterns ----------

  /** The printer of a single instruction. */
  function SingleDrawing(info: Info, v: View): Option<Drawing> {
    match info
    case System(kind) => SystemDrawing(kind, v)
    case Stake(kind) => StakeDrawing(kind, v)
    case Vote(kind) => VoteDrawing(kind, v)
    case Token(kind) => TokenDrawing(kind, v)
    case AssociatedTokenAccount =>
      Some(Drawing(Item(Pubkey, "Create token account"),
                   [Item(Pubkey, "For"), TOKEN_ADDRESS, Item(Pubkey, "Funded by")]))
    case Agenc(a) => Some(Drawing(ACTION, AgencItems(a)))
    case _ => None
  }

  /** How a pattern that creates a token entity ends. */
  function Funding(v: View): seq<UsedItem> {
    When(ShowsFunder(v), [Item(Pubkey, "Funded by")]) + [Item(Amount, "Funded with")]
  }

  /** print_stake_authorize_both, which refuses a pair in the wrong order. */
  function StakeAuthorizeBothDrawing(v: View): Option<Drawing> {
    if v.inOrder then
      Some(Drawing(Item(Pubkey, "Set stake auth"),
                   Authorities(v, "New authorities", "New stake auth")
                   + When(v.custodian, [Item(Pubkey, "Custodian")]) + AuthorizedBy(v)))
    else None
  }

  /** print_vote_authorize_both */
  function VoteAuthorizeBothDrawing(v: View): Option<Drawing> {
    if v.inOrder then
      Some(Drawing(Item(Pubkey, "Set vote auth"),
                   Authorities(v, "New authorities", "New vote auth") + AuthorizedBy(v)))
    else None
  }

  /** What the printer of a pattern draws, or None when it refuses. */
  function DrawingOf(p: Pattern, infos: seq<Info>, v: View): Option<Drawing> {
    match p
    case Single => if |infos| == 1 then SingleDrawing(infos[0], v) else None
    case CreateStakeAccount =>
      Some(Drawing(Item(Pubkey, "Create stake acct"), CreateItems(v, false) + StakeInitializeItems(v)))
    case CreateStakeAccountWithSeed =>
      Some(Drawing(Item(Pubkey, "Create stake acct"), CreateWithSeedItems(v, false) + StakeInitializeItems(v)))
    case CreateStakeAndDelegate =>
      Some(Drawing(Item(Pubkey, "Delegated from"),
                   CreateItems(v, false) + StakeInitializeItems(v) + DelegateItems(v)))
    case CreateStakeWithSeedAndDelegate =>
      Some(Drawing(Item(Pubkey, "Delegated from"),
                   CreateWithSeedItems(v, false) + StakeInitializeItems(v) + DelegateItems(v)))
    case CreateNonceAccount =>
      Some(Drawing(Item(Pubkey, "Create nonce acct"), CreateItems(v, false) + [NEW_AUTHORITY]))
    case CreateNonceAccountWithSeed =>
      Some(Drawing(Item(Pubkey, "Create nonce acct"), CreateWithSeedItems(v, false) + [NEW_AUTHORITY]))
    case CreateVoteAccount =>
      Some(Drawing(Item(Pubkey, "Create vote acct"), CreateItems(v, false) + VoteInitializeItems()))
    case CreateVoteAccountWithSeed =>
      Some(Drawing(Item(Pubkey, "Create vote acct"), CreateWithSeedItems(v, false) + VoteInitializeItems()))
    case StakeAuthorizeBoth => StakeAuthorizeBothDrawing(v)
    case VoteAuthorizeBoth => VoteAuthorizeBothDrawing(v)
    case SplitIntoAllocatedSeed => SplitDrawing(v, [], BaseAndSeed(v))
    case SplitIntoCreated => SplitDrawing(v, [], [])
    case SplitIntoCreatedSeed => SplitDrawing(v, [], BaseAndSeed(v))
    case SplitIntoAllocated => SplitDrawing(v, [], [])
    case PrefundedSplit => SplitDrawing(v, PrefundItems(v), [])
    case PrefundedSplitWithSeed => SplitDrawing(v, PrefundItems(v), BaseAndSeed(v))
    case TokenCreateMint =>
      Some(Drawing(Item(Pubkey, "Create token mint"),
                   [Item(Pubkey, "Mint authority"), Item(U64, "Mint decimals")]
                   + When(v.freezeAuthority, [Item(Pubkey, "Freeze authority")]) + Funding(v)))
    case TokenCreateAccount =>
      Some(Drawing(Item(Pubkey, "Create token account"), [Item(Pubkey, "For"), TOKEN_ADDRESS] + Funding(v)))
    case TokenCreateMultisig => Some(Drawing(Item(Pubkey, "Create multisig"), QuorumItems(v) + Funding(v)))
    case AtaCreateWithTransfer =>
      if |infos| == 2 then Some(TransferDrawing(v, infos[1] == Token(TransferFeeExtension))) else None
    case AgencCreateTaskWithReview =>
      if |infos| == 2 && infos[0].Agenc? && infos[1].Agenc? then ReviewedTaskDrawing(infos[0].agenc, infos[1].agenc)
      else None
  }
}
