/** The room in the summary: how many general items are left beside each pattern, and which
    transactions need more items than there are. */
module Slots {
  import opened Bytes
  import opened ComputeBudget
  import opened Dispatch
  import opened Summary
  import opened Items
  import AgencData
  import Agenc

  function One(b: bool): nat { if b then 1 else 0 }

  // ---------- the sizes of the drawings ----------

  lemma CreateSize(v: View, displayOwner: bool)
    ensures |CreateItems(v, displayOwner)| == 1 + One(ShowsFunder(v)) + if displayOwner && !v.knownOwner then 2 else 0
    ensures |CreateWithSeedItems(v, displayOwner)| == |CreateItems(v, displayOwner)| + if v.expert then 2 else 0
  {
  }

  lemma InitializeSize(v: View)
    ensures |StakeInitializeItems(v)| ==
              (if v.oneAuthority then 1 else 2)
              + if v.lockupTime || v.lockupEpoch then One(v.lockupTime) + One(v.lockupEpoch) + 1 else One(v.expert)
  {
  }

  lemma DelegateSize(v: View)
    ensures |DelegateItems(v)| == One(ShowsAuthority(v)) + 1
  {
  }

  lemma SplitSize(v: View, before: seq<UsedItem>, between: seq<UsedItem>)
    ensures |SplitDrawing(v, before, between).value.general| ==
              |before| + |between| + 2 + One(ShowsAuthority(v))
  {
  }

  lemma SystemSize(kind: SystemKind, v: View)
    ensures SystemDrawing(kind, v).Some? ==> |SystemDrawing(kind, v).value.general| <= 6
  {
    match kind
    case CreateAccount => CreateSize(v, true);
    case CreateAccountWithSeed => CreateSize(v, true);
    case _ =>
  }

  lemma StakeSize(kind: StakeKind, v: View)
    ensures StakeDrawing(kind, v).Some? ==> |StakeDrawing(kind, v).value.general| <= 5
  {
    InitializeSize(v);
    DelegateSize(v);
    SplitSize(v, [], []);
  }

  lemma VoteSize(kind: VoteKind, v: View)
    ensures VoteDrawing(kind, v).Some? ==> |VoteDrawing(kind, v).value.general| <= 4
  {
  }

  lemma SignSize(v: View)
    ensures |SignItems(v)| <= 2
  {
  }

  lemma TransferSize(v: View, withFee: bool)
    ensures |TransferDrawing(v, withFee).general| <= 6
  {
    SignSize(v);
  }

  lemma TokenSize(kind: TokenKind, v: View)
    ensures TokenDrawing(kind, v).Some? ==> |TokenDrawing(kind, v).value.general| <= 6
  {
    TransferSize(v, false);
    TransferSize(v, true);
    SetUpSize(kind, v);
    SignedSize(kind, v);
  }

  lemma SetUpSize(kind: TokenKind, v: View)
    ensures SetUpDrawing(kind, v).Some? ==> |SetUpDrawing(kind, v).value.general| <= 3
  {
  }

  lemma SignedSize(kind: TokenKind, v: View)
    ensures SignedDrawing(kind, v).Some? ==> |SignedDrawing(kind, v).value.general| <= 5
  {
    SignSize(v);
  }

  lemma CreateTaskSize(t: AgencData.CreateTail)
    ensures |CreateTaskItems(t)| == 8 + One(t.rewardMint.Some?) + One(t.taskType != 0)
  {
  }

  lemma AgencSize(a: Agenc.AgencInfo)
    ensures !a.fields.CreateTask? ==> |AgencItems(a)| <= 8
    ensures a.fields.CreateTask? ==> AgencItems(a) == CreateTaskItems(a.fields.tail)
  {
  }

  // ---------- what a pattern leaves ----------

  predicate RewardsTokens(info: Info) {
    info.Agenc? && info.agenc.fields.CreateTask? && info.agenc.fields.tail.rewardMint.Some?
  }

  predicate HasTaskType(info: Info) {
    info.Agenc? && info.agenc.fields.CreateTask? && info.agenc.fields.tail.taskType != 0
  }

  /** Two stake authorities and a lockup by time and epoch: the most that an initialized
      stake account is shown with. */
  predicate FullStake(v: View) { !v.oneAuthority && v.lockupTime && v.lockupEpoch }

  /** The pattern fills the summary. */
  predicate LeavesNone(p: Pattern, infos: seq<Info>, v: View)
    requires IsPattern(p, infos)
  {
    match p
    case CreateStakeWithSeedAndDelegate => v.expert && FullStake(v)
    case AgencCreateTaskWithReview => RewardsTokens(infos[0]) && HasTaskType(infos[0])
    case _ => false
  }

  /** At most one general item is left. */
  predicate LeavesOne(p: Pattern, infos: seq<Info>, v: View)
    requires IsPattern(p, infos)
  {
    match p
    case CreateStakeWithSeedAndDelegate =>
      v.expert && if v.oneAuthority then v.lockupTime && v.lockupEpoch else v.lockupTime || v.lockupEpoch
    case AgencCreateTaskWithReview => RewardsTokens(infos[0]) || HasTaskType(infos[0])
    case Single => RewardsTokens(infos[0]) && HasTaskType(infos[0])
    case _ => false
  }

  /** At most two general items are left. */
  predicate LeavesTwo(p: Pattern, infos: seq<Info>, v: View)
    requires IsPattern(p, infos)
  {
    match p
    case CreateStakeAccountWithSeed => v.expert && FullStake(v)
    case CreateStakeAndDelegate => FullStake(v) && ShowsFunder(v) && ShowsAuthority(v)
    case CreateStakeWithSeedAndDelegate =>
      if v.expert then !v.oneAuthority || v.lockupTime || v.lockupEpoch
      else FullStake(v) && ShowsFunder(v) && ShowsAuthority(v)
    case AgencCreateTaskWithReview => true
    case Single => RewardsTokens(infos[0]) || HasTaskType(infos[0])
    case _ => false
  }

  /** A drawing with n general items leaves that many. */
  ghost predicate Leaves(p: Pattern, infos: seq<Info>, v: View, n: nat)
    requires IsPattern(p, infos)
  {
    && n <= NUM_GENERAL_ITEMS && (n == 11 <==> LeavesNone(p, infos, v)) && (n >= 10 <==> LeavesOne(p, infos, v))
    && (n >= 9 <==> LeavesTwo(p, infos, v))
  }

  lemma SingleLeaves(info: Info, v: View)
    requires Printable(info) && SingleDrawing(info, v).Some?
    ensures Leaves(Single, [info], v, |SingleDrawing(info, v).value.general|)
  {
    match info
    case System(kind) => SystemSize(kind, v);
    case Stake(kind) => StakeSize(kind, v);
    case Vote(kind) => VoteSize(kind, v);
    case Token(kind) => TokenSize(kind, v);
    case AssociatedTokenAccount =>
    case Agenc(a) =>
      AgencSize(a);
      if a.fields.CreateTask? { CreateTaskSize(a.fields.tail); }
  }

  lemma ReviewLeaves(infos: seq<Info>, v: View, d: Drawing)
    requires IsPattern(AgencCreateTaskWithReview, infos)
    requires DrawingOf(AgencCreateTaskWithReview, infos, v) == Some(d)
    ensures Leaves(AgencCreateTaskWithReview, infos, v, |d.general|)
  {
    CreateTaskSize(infos[0].agenc.fields.tail);
  }

  /** The sizes of three of the drawings that create a stake account. */
  lemma StakeSizes(v: View)
    ensures |CreateItems(v, false) + StakeInitializeItems(v)| <= 7
    ensures var n := |CreateWithSeedItems(v, false) + StakeInitializeItems(v)|;
            n <= 9 && (n == 9 <==> v.expert && FullStake(v))
    ensures var n := |CreateItems(v, false) + StakeInitializeItems(v) + DelegateItems(v)|;
            n <= 9 && (n == 9 <==> FullStake(v) && ShowsFunder(v) && ShowsAuthority(v))
  {
    CreateSize(v, false);
    InitializeSize(v);
    DelegateSize(v);
  }

  lemma StakeLeaves(p: Pattern, infos: seq<Info>, v: View, d: Drawing)
    requires IsPattern(p, infos) && DrawingOf(p, infos, v) == Some(d)
    requires p.CreateStakeAccount? || p.CreateStakeAccountWithSeed? || p.CreateStakeAndDelegate?
    ensures Leaves(p, infos, v, |d.general|)
  {
    StakeSizes(v);
  }

  lemma FullestSize(v: View)
    ensures var n := |CreateWithSeedItems(v, false) + StakeInitializeItems(v) + DelegateItems(v)|;
            if v.expert then n == 8 + StakeOptions(v)
            else n <= 9 && (n == 9 <==> FullStake(v) && ShowsFunder(v) && ShowsAuthority(v))
  {
    CreateSize(v, false);
    InitializeSize(v);
    DelegateSize(v);
  }

  /** How many more items the options of an initialization take in expert mode. */
  function StakeOptions(v: View): (n: nat)
    ensures n >= 1 <==> !v.oneAuthority || v.lockupTime || v.lockupEpoch
    ensures n >= 2 <==> if v.oneAuthority then v.lockupTime && v.lockupEpoch else v.lockupTime || v.lockupEpoch
    ensures n <= 3 && (n == 3 <==> FullStake(v))
  {
    One(!v.oneAuthority) + One(v.lockupTime) + One(v.lockupEpoch)
  }

  lemma FullestLeaves(infos: seq<Info>, v: View, d: Drawing)
    requires IsPattern(CreateStakeWithSeedAndDelegate, infos)
    requires DrawingOf(CreateStakeWithSeedAndDelegate, infos, v) == Some(d)
    ensures Leaves(CreateStakeWithSeedAndDelegate, infos, v, |d.general|)
  {
    FullestSize(v);
  }

  lemma OtherLeaves(p: Pattern, infos: seq<Info>, v: View, d: Drawing)
    requires IsPattern(p, infos) && DrawingOf(p, infos, v) == Some(d) && !p.Single? && !p.AgencCreateTaskWithReview?
    requires !p.CreateStakeAccount? && !p.CreateStakeAccountWithSeed? && !p.CreateStakeAndDelegate?
    requires !p.CreateStakeWithSeedAndDelegate?
    ensures |d.general| <= 8
  {
    CreateSize(v, false);
    SplitSize(v, [], []);
    SplitSize(v, [], BaseAndSeed(v));
    SplitSize(v, PrefundItems(v), []);
    SplitSize(v, PrefundItems(v), BaseAndSeed(v));
    TransferSize(v, false);
    TransferSize(v, true);
  }

  /** No pattern needs more general items than there are, and exactly which leave none, at
      most one and at most two of them. */
  lemma SlotsLeft(p: Pattern, infos: seq<Info>, v: View, d: Drawing)
    requires IsPattern(p, infos) && DrawingOf(p, infos, v) == Some(d)
    ensures |d.general| <= NUM_GENERAL_ITEMS
    ensures |d.general| == NUM_GENERAL_ITEMS <==> LeavesNone(p, infos, v)
    ensures |d.general| >= NUM_GENERAL_ITEMS - 1 <==> LeavesOne(p, infos, v)
    ensures |d.general| >= NUM_GENERAL_ITEMS - 2 <==> LeavesTwo(p, infos, v)
  {
    if p.Single? {
      SingleLeaves(infos[0], v);
    } else if p.AgencCreateTaskWithReview? {
      ReviewLeaves(infos, v, d);
    } else if p.CreateStakeWithSeedAndDelegate? {
      FullestLeaves(infos, v, d);
    } else if p.CreateStakeAccount? || p.CreateStakeAccountWithSeed? || p.CreateStakeAndDelegate? {
      StakeLeaves(p, infos, v, d);
    } else {
      OtherLeaves(p, infos, v, d);
    }
  }

  // ---------- a whole transaction ----------

  /** print_spl_token_extension_warning, called before the transaction is printed. */
  function WarningItems(warned: bool): seq<UsedItem> {
    When(warned, [Item(Text, "Extension Warning"), Item(Text, "")])
  }

  /** print_compute_budget_max_fee, called after the pattern's printer. */
  function FeeItems(fee: u64): seq<UsedItem> { When(fee != 0, [Item(Amount, "Max fees")]) }

  predicate StartsWithAgenc(infos: seq<Info>) { |infos| > 0 && infos[0].Agenc? }

  /** The printer of a pattern succeeds: the AgenC printers refuse when there is no item
      left, the others never look. */
  predicate Prints(p: Pattern, infos: seq<Info>, v: View, warned: bool) {
    var d := DrawingOf(p, infos, v);
    d.Some?
    && (StartsWithAgenc(infos) ==> |WarningItems(warned)| + |d.value.general| <= NUM_GENERAL_ITEMS)
  }

  function Printers(v: View, warned: bool): (Pattern, seq<Info>) -> bool {
    (p: Pattern, infos: seq<Info>) => Prints(p, infos, v, warned)
  }

  /** All general items of a transaction, in order. */
  function GeneralItems(d: Drawing, fee: u64, warned: bool): seq<UsedItem> {
    WarningItems(warned) + d.general + FeeItems(fee)
  }

  function ScreenDrawing(s: Screen, v: View): Option<Drawing> { DrawingOf(s.pattern, s.infos, v) }

  /** More general items than there are: a setter writes through the missing item. */
  ghost predicate Overruns(s: Screen, v: View, warned: bool) {
    var d := ScreenDrawing(s, v);
    d.Some? && |GeneralItems(d.value, s.fee, warned)| > NUM_GENERAL_ITEMS
  }

  /** Without an extension warning every printer succeeds that does not refuse by itself,
      and everything fits, except a fee beside a pattern that fills the summary. */
  lemma FeeFitsIff(infos: seq<Info>, v: View, s: Screen)
    requires ShownAs(infos, Printers(v, false), s)
    ensures Overruns(s, v, false) <==> s.fee != 0 && LeavesNone(s.pattern, s.infos, v)
  {
    SlotsLeft(s.pattern, s.infos, v, DrawingOf(s.pattern, s.infos, v).value);
  }

  /** With a warning everything fits exactly when the pattern leaves two items, and a third
      one beside a fee. */
  lemma WarningFitsIff(infos: seq<Info>, v: View, s: Screen)
    requires ShownAs(infos, Printers(v, true), s)
    ensures Overruns(s, v, true) <==>
              if s.fee == 0 then LeavesOne(s.pattern, s.infos, v) else LeavesTwo(s.pattern, s.infos, v)
  {
    SlotsLeft(s.pattern, s.infos, v, DrawingOf(s.pattern, s.infos, v).value);
  }

  /** A printer fails exactly when it refuses what it is given, or when an AgenC task with
      both options, alone or with its review, or with one option and its review, stands
      beside a warning. */
  lemma PrinterFailsIff(p: Pattern, infos: seq<Info>, v: View, warned: bool)
    requires IsPattern(p, infos)
    ensures !Printers(v, warned)(p, infos) <==>
              DrawingOf(p, infos, v).None? || (warned && StartsWithAgenc(infos) && LeavesOne(p, infos, v))
  {
    if DrawingOf(p, infos, v).Some? {
      SlotsLeft(p, infos, v, DrawingOf(p, infos, v).value);
    }
  }

  // ---------- transactions that do not fit ----------

  /** One compute-budget instruction that sets a price of 1, for one signature. */
  const PRICED: Info := Budget(BudgetInfo(ChangeUnitPrice(1), 1))

  lemma PricedScreen(infos: seq<Info>, p: Pattern, prints: (Pattern, seq<Info>) -> bool)
    requires |infos| <= 3 && IsPattern(p, infos) && !p.AtaCreateWithTransfer? && prints(p, infos)
    ensures ShownAs([PRICED] + infos, prints, Screen(false, 1, 5000, p, infos))
  {
    var all := [PRICED] + infos;
    assert all[1..] == infos;
    PatternContents(p, infos);
    assert AllBudget(all[..1]);
    RunIsMaximal(all, 1);
    assert all[..1] == [PRICED] && [PRICED][..0] == [];
    assert Settings([PRICED], |all|) == FeeInfo(None, Some(1), |all|, 1);
  }

  /** A lone AgenC task of the default type with a reward in tokens is shown beside a
      warning, and its fee has no item. */
  lemma TaskFeeOverruns(a: Agenc.AgencInfo, v: View)
    requires RewardsTokens(Agenc(a)) && !HasTaskType(Agenc(a))
    ensures var s := Screen(false, 1, 5000, Single, [Agenc(a)]);
            ShownAs([PRICED, Agenc(a)], Printers(v, true), s) && Overruns(s, v, true)
  {
    var infos := [Agenc(a)];
    PrinterFailsIff(Single, infos, v, true);
    PricedScreen(infos, Single, Printers(v, true));
    assert [PRICED] + infos == [PRICED, Agenc(a)];
    WarningFitsIff([PRICED, Agenc(a)], v, Screen(false, 1, 5000, Single, infos));
  }

  /** With a task type as well it is refused beside a warning, and shown without one. */
  lemma FullTaskRefused(a: Agenc.AgencInfo, v: View)
    requires RewardsTokens(Agenc(a)) && HasTaskType(Agenc(a))
    ensures Printers(v, false)(Single, [Agenc(a)]) && !Printers(v, true)(Single, [Agenc(a)])
  {
    PrinterFailsIff(Single, [Agenc(a)], v, true);
    PrinterFailsIff(Single, [Agenc(a)], v, false);
  }

  /** A fee without an item needs no warning: a stake account with a seed, created and
      delegated with all options, fills the summary. */
  lemma StakeFeeOverruns(v: View)
    requires v.expert && FullStake(v)
    ensures var infos := [System(CreateAccountWithSeed), Stake(StakeInitialize), Stake(StakeDelegate)];
            var s := Screen(false, 1, 5000, CreateStakeWithSeedAndDelegate, infos);
            ShownAs([PRICED] + infos, Printers(v, false), s) && Overruns(s, v, false)
  {
    var infos := [System(CreateAccountWithSeed), Stake(StakeInitialize), Stake(StakeDelegate)];
    PrinterFailsIff(CreateStakeWithSeedAndDelegate, infos, v, false);
    PricedScreen(infos, CreateStakeWithSeedAndDelegate, Printers(v, false));
    FeeFitsIff([PRICED] + infos, v, Screen(false, 1, 5000, CreateStakeWithSeedAndDelegate, infos));
  }

  // ---------- filling the summary ----------

  /** The setters of a list of items, up to the first that finds no slot. */
  method AddItems(t: TransactionSummary, items: seq<UsedItem>) returns (ok: bool)
    requires t.Valid()
    modifies t.general
    ensures t.Valid()
    ensures ok <==> |old(t.Generals())| + |items| <= NUM_GENERAL_ITEMS
    ensures ok ==> t.Generals() == old(t.Generals()) + items
  {
    ok := true;
    assert items[..0] == [];
    for i := 0 to |items|
      invariant t.Valid() && ok && t.Generals() == old(t.Generals()) + items[..i]
      invariant |t.Generals()| <= NUM_GENERAL_ITEMS
    {
      ok := t.AddGeneral(items[i]);
      if !ok { return; }
      assert items[..i + 1] == items[..i] + [items[i]];
    }
    assert items[..|items|] == items;
  }

  /** How printing a transaction ends: with all its items, with a refusal, or with a setter
      that writes through a missing item. */
  datatype Outcome = Drawn | Refused | Overrun

  /** print_system_nonced_transaction_sentinel */
  function NonceItem(s: Screen, v: View, title: string): Item {
    if s.nonce && v.expert then Item(Pubkey, title) else UNUSED
  }

  ghost predicate IsReset(t: TransactionSummary)
    reads t, t.general
  {
    && t.Valid() && t.Generals() == [] && !t.primary.Used() && t.nonceAccount == UNUSED
    && t.nonceAuthority == UNUSED
  }

  /** What the summary holds before the fee payer is set. */
  ghost predicate Holds(t: TransactionSummary, d: Drawing, s: Screen, v: View, warned: bool)
    reads t, t.general
  {
    && t.primary == d.primary && t.Generals() == GeneralItems(d, s.fee, warned)
    && t.nonceAccount == NonceItem(s, v, "Nonce account")
    && t.nonceAuthority == NonceItem(s, v, "Nonce authority")
  }

  /** The setters that a printer calls, and that of the fee. */
  method DrawScreen(t: TransactionSummary, d: Drawing, s: Screen, v: View, warned: bool) returns (ok: bool)
    requires t.Valid() && t.Generals() == WarningItems(warned)
    modifies t`primary, t`nonceAccount, t`nonceAuthority, t.general
    ensures t.Valid() && (ok <==> |GeneralItems(d, s.fee, warned)| <= NUM_GENERAL_ITEMS)
    ensures ok ==> Holds(t, d, s, v, warned)
  {
    t.nonceAccount := NonceItem(s, v, "Nonce account");
    t.nonceAuthority := NonceItem(s, v, "Nonce authority");
    t.primary := d.primary;
    ok := AddItems(t, d.general);
    if ok {
      ok := AddItems(t, FeeItems(s.fee));
    }
  }

  /** The end of process_message_body: the warning, print_transaction, the fee. */
  method DrawTransaction(t: TransactionSummary, infos: seq<Info>, v: View, warned: bool)
      returns (o: Outcome, screen: Option<Screen>)
    requires IsReset(t) && |infos| <= MAX_INSTRUCTIONS
    modifies t`primary, t`nonceAccount, t`nonceAuthority, t.general
    ensures t.Valid()
    ensures o.Refused? <==> screen.None?
    ensures screen.None? ==> forall s :: !ShownAs(infos, Printers(v, warned), s)
    ensures screen.Some? ==> ShownAs(infos, Printers(v, warned), screen.value)
    ensures screen.Some? ==> ScreenDrawing(screen.value, v).Some? && (o.Overrun? <==> Overruns(screen.value, v, warned))
    ensures o.Drawn? ==> Holds(t, ScreenDrawing(screen.value, v).value, screen.value, v, warned)
  {
    var ok := AddItems(t, WarningItems(warned));
    screen := PrintTransaction(infos, Printers(v, warned));
    if screen.None? {
      return Refused, screen;
    }
    var d := ScreenDrawing(screen.value, v);
    ok := DrawScreen(t, d.value, screen.value, v, warned);
    o := if ok then Drawn else Overrun;
  }
}
