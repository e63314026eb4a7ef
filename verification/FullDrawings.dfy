/** The drawings of the printers with every option on, written out item by item. */
module FullDrawings {
  import opened Bytes
  import opened Dispatch
  import opened Summary
  import opened Items
  import AgencData
  import Agenc

  /** Expert mode, foreign keys, and every optional field there. */
  const FULL: View := View(
    expert := true, fullPrint := true, toTokenAccount := true,
    signerActs := false, signerFunds := false, signerHolds := false,
    knownOwner := false, knownValidator := false, oneAuthority := false, forWithdrawer := true, inOrder := true,
    lockupTime := true, lockupEpoch := true, newCustodian := true, custodian := true,
    freezeAuthority := true, clearsAuthority := false, multisig := true, properQuorum := true,
    transferFee := true, unknownMint := true)

  ghost predicate Draws(d: Option<Drawing>, primary: Item, general: seq<Item>) {
    d.Some? && d.value.primary == primary && d.value.general == general
  }

  lemma FullSystem(kind: SystemKind)
    ensures var d := SystemDrawing(kind, FULL);
            match kind
            case Transfer => Draws(d, Item(Amount, "Amount"), [Item(Pubkey, "Sender"), Item(Pubkey, "To")])
            case AdvanceNonceAccount => Draws(d, Item(Pubkey, "Advance nonce"), [Item(Pubkey, "Authorized by")])
            case CreateAccount =>
              Draws(d, Item(Pubkey, "Create account"),
                    [Item(Amount, "Deposit"), Item(Pubkey, "From"), Item(U64, "Data size"),
                     Item(Pubkey, "Owner program")])
            case CreateAccountWithSeed =>
              Draws(d, Item(Pubkey, "Create account"),
                    [Item(Amount, "Deposit"), Item(Pubkey, "From"), Item(U64, "Data size"),
                     Item(Pubkey, "Owner program"), Item(Pubkey, "Base"), Item(SizedString, "Seed")])
            case InitializeNonceAccount => Draws(d, Item(Pubkey, "Init nonce acct"), [Item(Pubkey, "New authority")])
            case WithdrawNonceAccount =>
              Draws(d, Item(Amount, "Nonce withdraw"),
                    [Item(Pubkey, "From"), Item(Pubkey, "To"), Item(Pubkey, "Authorized by")])
            case AuthorizeNonceAccount =>
              Draws(d, Item(Pubkey, "Set nonce auth"), [Item(Pubkey, "New authority"), Item(Pubkey, "Authorized by")])
            case Assign => Draws(d, Item(Pubkey, "Assign acct"), [Item(Pubkey, "To program")])
            case Allocate => Draws(d, Item(Pubkey, "Allocate acct"), [Item(U64, "Data size")])
            case AllocateWithSeed =>
              Draws(d, Item(Pubkey, "Allocate acct"),
                    [Item(U64, "Data size"), Item(Pubkey, "Base"), Item(SizedString, "Seed")])
            case AssignWithSeed => d.None?
  {
  }

  lemma FullStake(kind: StakeKind)
    ensures var d := StakeDrawing(kind, FULL);
            match kind
            case StakeDelegate =>
              Draws(d, Item(Pubkey, "Delegated from"), [Item(Pubkey, "Authorized by"), Item(Pubkey, "Vote account")])
            case StakeWithdraw =>
              Draws(d, Item(Amount, "Amount"),
                    [Item(Pubkey, "From stake account"), Item(Pubkey, "To"), Item(Pubkey, "Authorized by")])
            case StakeDeactivate => Draws(d, Item(Pubkey, "Stake account"), [Item(Pubkey, "Authorized by")])
            case StakeSplit =>
              Draws(d, Item(Amount, "Split stake"),
                    [Item(Pubkey, "From"), Item(Pubkey, "To"), Item(Pubkey, "Authorized by")])
            case StakeMerge => Draws(d, Item(Pubkey, "Merge"), [Item(Pubkey, "Into"), Item(Pubkey, "Authorized by")])
            case StakeAuthorizeWithSeed => d.None?
            case StakeAuthorizeCheckedWithSeed => d.None?
            case _ =>
              if kind == StakeInitialize || kind == StakeInitializeChecked then
                Draws(d, Item(Pubkey, "Init stake acct"),
                      [Item(Pubkey, "New stake auth"), Item(Pubkey, "New withdraw auth"),
                       Item(Timestamp, "Lockup time"), Item(U64, "Lockup epoch"), Item(Pubkey, "Lockup authority")])
              else if kind == StakeAuthorize || kind == StakeAuthorizeChecked then
                Draws(d, Item(Pubkey, "Set stake auth"),
                      [Item(Pubkey, "New withdraw auth"), Item(Pubkey, "Authorized by"), Item(Pubkey, "Custodian")])
              else
                Draws(d, Item(Pubkey, "Set lockup"),
                      [Item(Timestamp, "Time"), Item(U64, "Epoch"), Item(Pubkey, "New authority"),
                       Item(Pubkey, "Authorized by")])
  {
  }

  lemma FullVote(kind: VoteKind)
    ensures var d := VoteDrawing(kind, FULL);
            match kind
            case VoteInitialize =>
              Draws(d, Item(Pubkey, "Init vote acct"),
                    [Item(Pubkey, "Validator ID"), Item(Pubkey, "New vote auth"), Item(Pubkey, "New withdraw auth"),
                     Item(U64, "Commission")])
            case VoteWithdraw =>
              Draws(d, Item(Amount, "Vote withdraw"),
                    [Item(Pubkey, "From"), Item(Pubkey, "To"), Item(Pubkey, "Authorized by")])
            case VoteUpdateValidatorId =>
              Draws(d, Item(Pubkey, "Update validator"),
                    [Item(Pubkey, "New validator ID"), Item(Pubkey, "Authorized by")])
            case VoteUpdateCommission =>
              Draws(d, Item(Pubkey, "Update commission"), [Item(U64, "Commission"), Item(Pubkey, "Authorized by")])
            case VoteVote => d.None?
            case VoteSwitchVote => d.None?
            case _ =>
              Draws(d, Item(Pubkey, "Set vote auth"),
                    [Item(Pubkey, "New withdraw auth"), Item(Pubkey, "Authorized by")])
  {
  }

  /** The token instructions that set up an account, and the transfers. */
  lemma FullTokenSetUp(kind: TokenKind)
    ensures var d := TokenDrawing(kind, FULL);
            match kind
            case InitializeMint =>
              Draws(d, Item(Pubkey, "Init mint"),
                    [Item(Pubkey, "Mint authority"), Item(U64, "Decimals"), Item(Pubkey, "Freeze authority")])
            case InitializeAccount =>
              Draws(d, Item(Pubkey, "Init acct"), [Item(Pubkey, "Owner"), Item(Pubkey, "Token address")])
            case InitializeAccount2 =>
              Draws(d, Item(Pubkey, "Init acct"), [Item(Pubkey, "Owner"), Item(Pubkey, "Token address")])
            case InitializeMultisig => Draws(d, Item(Pubkey, "Init multisig"), [Item(Text, "Required signers")])
            case SyncNative => Draws(d, Item(Pubkey, "Sync native account"), [])
            case TransferChecked =>
              Draws(d, Item(TokenAmount, "Amount"),
                    [Item(Pubkey, "Token address"), Item(Text, "To"), Item(Pubkey, "To (token account)"),
                     Item(Pubkey, "Owner"), Item(U64, "Signers")])
            case TransferFeeExtension =>
              Draws(d, Item(TokenAmount, "Amount"),
                    [Item(Pubkey, "Token address"), Item(Text, "To"), Item(Pubkey, "To (token account)"),
                     Item(TokenAmount, "Token transfer fee"), Item(Pubkey, "Owner"), Item(U64, "Signers")])
            case OtherToken(_) => d.None?
            case _ => true
  {
  }

  /** The other token instructions, which end with who signs. */
  lemma FullTokenSigned(kind: TokenKind)
    ensures var d := TokenDrawing(kind, FULL);
            match kind
            case Revoke => Draws(d, Item(Pubkey, "Revoke delegate"), [Item(Pubkey, "Owner"), Item(U64, "Signers")])
            case SetAuthority =>
              Draws(d, Item(Pubkey, "Set authority"),
                    [Item(Text, "Type"), Item(Pubkey, "Authority"), Item(Pubkey, "Owner"), Item(U64, "Signers")])
            case CloseAccount =>
              Draws(d, Item(Pubkey, "Close token account"),
                    [Item(Pubkey, "Withdraw to"), Item(Pubkey, "Owner"), Item(U64, "Signers")])
            case FreezeAccount =>
              Draws(d, Item(Pubkey, "Freeze token account"),
                    [Item(Pubkey, "Token address"), Item(Pubkey, "Owner"), Item(U64, "Signers")])
            case ThawAccount =>
              Draws(d, Item(Pubkey, "Thaw token account"),
                    [Item(Pubkey, "Token address"), Item(Pubkey, "Owner"), Item(U64, "Signers")])
            case ApproveChecked =>
              Draws(d, Item(Pubkey, "Approve delegate"),
                    [Item(TokenAmount, "Allowance"), Item(Pubkey, "Token address"),
                     Item(Pubkey, "From (token account)"), Item(Pubkey, "Owner"), Item(U64, "Signers")])
            case MintToChecked =>
              Draws(d, Item(TokenAmount, "Mint tokens"),
                    [Item(Pubkey, "Token address"), Item(Pubkey, "To (token account)"), Item(Pubkey, "Owner"),
                     Item(U64, "Signers")])
            case BurnChecked =>
              Draws(d, Item(TokenAmount, "Burn tokens"),
                    [Item(Pubkey, "Token address"), Item(Pubkey, "From (token account)"), Item(Pubkey, "Owner"),
                     Item(U64, "Signers")])
            case _ => true
  {
  }

  /** The AgenC instructions with all their optional fields. */
  ghost predicate HasAll(a: Agenc.AgencInfo) {
    match a.fields
    case RegisterAgent(_, _, _, uri, _) => uri.Some?
    case CreateTask(_, tail) => tail.rewardMint.Some? && tail.taskType != 0
    case ConfigureTaskValidation(_, _, _, attestor) => attestor.Some?
    case SubmitTaskResult(_, _) => a.artifactHash.Some?
    case _ => true
  }

  lemma FullAgencTask(a: Agenc.AgencInfo, v: View)
    requires HasAll(a)
    ensures var d := SingleDrawing(Agenc(a), v);
            match a.fields
            case RegisterAgent(_, _, _, _, _) =>
              Draws(d, Item(Text, "AgenC action"),
                    [Item(Amount, "Stake"), Item(Pubkey, "Agent"), Item(Pubkey, "Authority"),
                     Item(U64, "Capabilities"), Item(SizedString, "Endpoint"), Item(SizedString, "Metadata URI"),
                     Item(Pubkey, "Program")])
            case CreateTask(_, _) =>
              Draws(d, Item(Text, "AgenC action"),
                    [Item(U64, "Reward (token base units)"), Item(Pubkey, "Token mint"), Item(Pubkey, "Task"),
                     Item(Pubkey, "Creator"), Item(Hash, "Content hash"), Item(Timestamp, "Deadline"),
                     Item(U64, "Max workers"), Item(U64, "Task type"), Item(U64, "Min reputation"),
                     Item(Pubkey, "Program")])
            case ConfigureTaskValidation(_, _, _, _) =>
              Draws(d, Item(Text, "AgenC action"),
                    [Item(Pubkey, "Task"), Item(U64, "Mode"), Item(I64, "Review window"),
                     Item(U64, "Validator quorum"), Item(Pubkey, "Attestor"), Item(Pubkey, "Program")])
            case SetTaskJobSpec(_, _) =>
              Draws(d, Item(Text, "AgenC action"),
                    [Item(Hash, "Job spec hash"), Item(Pubkey, "Task"), Item(Pubkey, "Creator"),
                     Item(SizedString, "Job spec URI"), Item(Pubkey, "Program")])
            case ClaimTaskWithJobSpec =>
              Draws(d, Item(Text, "AgenC action"),
                    [Item(Pubkey, "Task"), Item(Pubkey, "Worker"), Item(Pubkey, "Authority"), Item(Pubkey, "Claim"),
                     Item(Pubkey, "Program")])
            case _ => true
  {
  }

  lemma FullAgencResult(a: Agenc.AgencInfo, v: View)
    requires HasAll(a)
    ensures var d := SingleDrawing(Agenc(a), v);
            match a.fields
            case SubmitTaskResult(_, _) =>
              Draws(d, Item(Text, "AgenC action"),
                    [Item(Hash, "Proof hash"), Item(Pubkey, "Task"), Item(Pubkey, "Worker"),
                     Item(Pubkey, "Submission"), Item(Hash, "Artifact SHA-256"), Item(Pubkey, "Program")])
            case AcceptTaskResult =>
              Draws(d, Item(Text, "AgenC action"),
                    [Item(Text, "Reward"), Item(Pubkey, "Task"), Item(Pubkey, "Worker"), Item(Pubkey, "Worker auth"),
                     Item(Pubkey, "Creator"), Item(Pubkey, "Treasury"), Item(Pubkey, "Program")])
            case RejectTaskResult(_) =>
              Draws(d, Item(Text, "AgenC action"),
                    [Item(Hash, "Rejection hash"), Item(Pubkey, "Task"), Item(Pubkey, "Worker"),
                     Item(Pubkey, "Worker auth"), Item(Pubkey, "Creator"), Item(Pubkey, "Submission"),
                     Item(Pubkey, "Program")])
            case CancelTask =>
              Draws(d, Item(Text, "AgenC action"),
                    [Item(Text, "Refund"), Item(Pubkey, "Task"), Item(Pubkey, "Authority"), Item(Pubkey, "Escrow"),
                     Item(U64, "Worker claims"), Item(Pubkey, "Program")])
            case ExpireClaim =>
              Draws(d, Item(Text, "AgenC action"),
                    [Item(Pubkey, "Task"), Item(Pubkey, "Claim"), Item(Pubkey, "Worker"), Item(Pubkey, "Authority"),
                     Item(Pubkey, "Rent recipient"), Item(Pubkey, "Validation"), Item(Pubkey, "Submission"),
                     Item(Pubkey, "Program")])
            case _ => true
  {
  }

  // ---------- the patterns ----------

  /** The patterns that create a stake account. */
  lemma FullCreateStake(infos: seq<Info>, p: Pattern)
    ensures var d := DrawingOf(p, infos, FULL);
            match p
            case CreateStakeAccount =>
              Draws(d, Item(Pubkey, "Create stake acct"),
                    [Item(Amount, "Deposit"), Item(Pubkey, "From"), Item(Pubkey, "New stake auth"),
                     Item(Pubkey, "New withdraw auth"), Item(Timestamp, "Lockup time"), Item(U64, "Lockup epoch"),
                     Item(Pubkey, "Lockup authority")])
            case CreateStakeAccountWithSeed =>
              Draws(d, Item(Pubkey, "Create stake acct"),
                    [Item(Amount, "Deposit"), Item(Pubkey, "From"), Item(Pubkey, "Base"), Item(SizedString, "Seed"),
                     Item(Pubkey, "New stake auth"), Item(Pubkey, "New withdraw auth"),
                     Item(Timestamp, "Lockup time"), Item(U64, "Lockup epoch"), Item(Pubkey, "Lockup authority")])
            case CreateStakeAndDelegate =>
              Draws(d, Item(Pubkey, "Delegated from"),
                    [Item(Amount, "Deposit"), Item(Pubkey, "From"), Item(Pubkey, "New stake auth"),
                     Item(Pubkey, "New withdraw auth"), Item(Timestamp, "Lockup time"), Item(U64, "Lockup epoch"),
                     Item(Pubkey, "Lockup authority"), Item(Pubkey, "Authorized by"), Item(Pubkey, "Vote account")])
            case CreateStakeWithSeedAndDelegate =>
              Draws(d, Item(Pubkey, "Delegated from"),
                    [Item(Amount, "Deposit"), Item(Pubkey, "From"), Item(Pubkey, "Base"), Item(SizedString, "Seed"),
                     Item(Pubkey, "New stake auth"), Item(Pubkey, "New withdraw auth"),
                     Item(Timestamp, "Lockup time"), Item(U64, "Lockup epoch"), Item(Pubkey, "Lockup authority"),
                     Item(Pubkey, "Authorized by"), Item(Pubkey, "Vote account")])
            case _ => true
  {
  }

  /** The other patterns that create an account. */
  lemma FullCreate(infos: seq<Info>, p: Pattern)
    ensures var d := DrawingOf(p, infos, FULL);
            match p
            case CreateNonceAccount =>
              Draws(d, Item(Pubkey, "Create nonce acct"),
                    [Item(Amount, "Deposit"), Item(Pubkey, "From"), Item(Pubkey, "New authority")])
            case CreateNonceAccountWithSeed =>
              Draws(d, Item(Pubkey, "Create nonce acct"),
                    [Item(Amount, "Deposit"), Item(Pubkey, "From"), Item(Pubkey, "Base"), Item(SizedString, "Seed"),
                     Item(Pubkey, "New authority")])
            case CreateVoteAccount =>
              Draws(d, Item(Pubkey, "Create vote acct"),
                    [Item(Amount, "Deposit"), Item(Pubkey, "From"), Item(Pubkey, "Validator ID"),
                     Item(Pubkey, "New vote auth"), Item(Pubkey, "New withdraw auth"), Item(U64, "Commission")])
            case CreateVoteAccountWithSeed =>
              Draws(d, Item(Pubkey, "Create vote acct"),
                    [Item(Amount, "Deposit"), Item(Pubkey, "From"), Item(Pubkey, "Base"), Item(SizedString, "Seed"),
                     Item(Pubkey, "Validator ID"), Item(Pubkey, "New vote auth"), Item(Pubkey, "New withdraw auth"),
                     Item(U64, "Commission")])
            case TokenCreateMint =>
              Draws(d, Item(Pubkey, "Create token mint"),
                    [Item(Pubkey, "Mint authority"), Item(U64, "Mint decimals"), Item(Pubkey, "Freeze authority"),
                     Item(Pubkey, "Funded by"), Item(Amount, "Funded with")])
            case TokenCreateAccount =>
              Draws(d, Item(Pubkey, "Create token account"),
                    [Item(Pubkey, "For"), Item(Pubkey, "Token address"), Item(Pubkey, "Funded by"),
                     Item(Amount, "Funded with")])
            case TokenCreateMultisig =>
              Draws(d, Item(Pubkey, "Create multisig"),
                    [Item(Text, "Required signers"), Item(Pubkey, "Funded by"), Item(Amount, "Funded with")])
            case _ => true
  {
  }

  /** The patterns that set authorities or split a stake. */
  lemma FullSetOrSplit(infos: seq<Info>, p: Pattern)
    ensures var d := DrawingOf(p, infos, FULL);
            match p
            case StakeAuthorizeBoth =>
              Draws(d, Item(Pubkey, "Set stake auth"),
                    [Item(Pubkey, "New stake auth"), Item(Pubkey, "New withdraw auth"), Item(Pubkey, "Custodian"),
                     Item(Pubkey, "Authorized by")])
            case VoteAuthorizeBoth =>
              Draws(d, Item(Pubkey, "Set vote auth"),
                    [Item(Pubkey, "New vote auth"), Item(Pubkey, "New withdraw auth"), Item(Pubkey, "Authorized by")])
            case PrefundedSplit =>
              Draws(d, Item(Amount, "Split stake"),
                    [Item(Amount, "Prefund"), Item(Pubkey, "Prefunder"), Item(Pubkey, "From"), Item(Pubkey, "To"),
                     Item(Pubkey, "Authorized by")])
            case PrefundedSplitWithSeed =>
              Draws(d, Item(Amount, "Split stake"),
                    [Item(Amount, "Prefund"), Item(Pubkey, "Prefunder"), Item(Pubkey, "From"), Item(Pubkey, "To"),
                     Item(Pubkey, "Base"), Item(SizedString, "Seed"), Item(Pubkey, "Authorized by")])
            case _ =>
              if p.SplitIntoAllocatedSeed? || p.SplitIntoCreatedSeed? then
                Draws(d, Item(Amount, "Split stake"),
                      [Item(Pubkey, "From"), Item(Pubkey, "To"), Item(Pubkey, "Base"), Item(SizedString, "Seed"),
                       Item(Pubkey, "Authorized by")])
              else p.SplitIntoAllocated? || p.SplitIntoCreated? ==>
                Draws(d, Item(Amount, "Split stake"),
                      [Item(Pubkey, "From"), Item(Pubkey, "To"), Item(Pubkey, "Authorized by")])
  {
  }

  /** The token transfer with its account. */
  lemma FullAtaTransfer(infos: seq<Info>, v: View)
    requires |infos| == 2 && (infos[1] == Token(TransferChecked) || infos[1] == Token(TransferFeeExtension))
    ensures DrawingOf(AtaCreateWithTransfer, infos, v) == SingleDrawing(infos[1], v)
  {
  }

  /** The AgenC task with its review is drawn exactly when both name one task and one creator,
      and the creator alone reviews; as the task, and the review window. */
  lemma FullReview(c: Agenc.AgencInfo, g: Agenc.AgencInfo, v: View)
    requires c.fields.CreateTask? && |c.accounts| == 8 && g.fields.ConfigureTaskValidation? && |g.accounts| == 7
    ensures var d := DrawingOf(AgencCreateTaskWithReview, [Agenc(c), Agenc(g)], v);
            && (d.Some? <==> c.accounts[0] == g.accounts[0] && c.accounts[6] == g.accounts[5]
                             && g.fields.mode == 1 && g.fields.quorum == 0 && g.fields.attestor.None?)
            && (d.Some? ==> Draws(d, Item(Text, "AgenC action"),
                                  AgencItems(c) + [Item(I64, "Review window")]))
  {
  }

  // ---------- what hides an item ----------

  /** An item that names a key is left out only outside expert mode and when the key is the
      signer's. */
  lemma KeyHiddenIff(v: View)
    ensures Item(Pubkey, "Authorized by") in AuthorizedBy(v) <==> v.expert || !v.signerActs
    ensures Item(Pubkey, "Sender") in SystemDrawing(Transfer, v).value.general <==> v.expert || !v.signerActs
    ensures Item(Pubkey, "Funded by") in Funding(v) <==> v.expert || !v.signerFunds
    ensures Item(Pubkey, "Owner") in SignItems(v) <==> v.multisig || v.expert || !v.signerActs
  {
  }

  lemma FunderHiddenIff(v: View)
    ensures Item(Pubkey, "From") in CreateItems(v, false) <==> v.expert || !v.signerFunds
    ensures Item(Pubkey, "Owner program") in CreateItems(v, true) <==> !v.knownOwner
    ensures Item(Pubkey, "Base") in BaseAndSeed(v) <==> v.expert
    ensures Item(Amount, "Prefund") in PrefundItems(v) <==> v.expert
  {
  }

  lemma LockupHiddenIff(v: View)
    ensures Item(Text, "Lockup") in StakeInitializeItems(v) <==> v.expert && !v.lockupTime && !v.lockupEpoch
    ensures Item(Pubkey, "Lockup authority") in StakeInitializeItems(v) <==> v.lockupTime || v.lockupEpoch
  {
  }

  lemma CustodianHiddenIff(v: View)
    ensures Item(Pubkey, "Custodian") in StakeAuthorizeDrawing(v).general <==>
              v.custodian && (v.expert || !v.signerHolds)
  {
  }

  /** The receiver of a token transfer is always shown, by address or by token account. */
  lemma ReceiverShown(v: View, withFee: bool)
    ensures Item(Text, "To") in TransferDrawing(v, withFee).general <==> v.fullPrint || !v.toTokenAccount
    ensures Item(Pubkey, "To (token account)") in TransferDrawing(v, withFee).general <==>
              v.fullPrint || v.toTokenAccount
  {
    SignTitles(v);
  }

  lemma SignTitles(v: View)
    ensures forall i :: 0 <= i < |SignItems(v)| ==>
              SignItems(v)[i] == Item(Pubkey, "Owner") || SignItems(v)[i] == Item(U64, "Signers")
  {
  }

  lemma TokenFeeShown(v: View, withFee: bool)
    ensures Item(Pubkey, "Token address") in TransferDrawing(v, withFee).general <==> v.fullPrint || v.unknownMint
    ensures Item(TokenAmount, "Token transfer fee") in TransferDrawing(v, withFee).general <==>
              withFee && v.transferFee
  {
    SignTitles(v);
  }
}
