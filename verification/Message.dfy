/** process_message_body of libsol/message.c: every instruction is read, checked and
    recognised, and what is shown accounts for all of them. */
module Message {
  import opened Bytes
  import opened Wire
  import opened Walk
  import opened Instructions
  import opened Dispatch
  import P = Parser
  import B = ComputeBudget
  import A = Agenc

  datatype Program =
    | UnknownProgram | SystemProgram | StakeProgram | VoteProgram | TokenProgram | AtaProgram
    | MemoProgram | AssertOwnerProgram | ComputeBudgetProgram | AgencProgram

  /** The program ids, and the parsers of the programs whose fields are not modelled: they
      accept an instruction as one of their kinds, or do not. A token instruction may also
      be an extension that is left out of the display, or one that needs a warning. */
  datatype Recogniser = Recogniser(
    programOf: seq<byte> -> Program,
    system: (Instruction, MessageHeader) -> Option<SystemKind>,
    stake: (Instruction, MessageHeader) -> Option<StakeKind>,
    vote: (Instruction, MessageHeader) -> Option<VoteKind>,
    token: (Instruction, MessageHeader) -> Option<TokenKind>,
    tokenIgnored: (Instruction, MessageHeader) -> bool,
    tokenWarns: (Instruction, MessageHeader) -> bool,
    ata: (Instruction, MessageHeader) -> bool)

  ghost function InfoOf(r: Recogniser, i: Instruction, h: MessageHeader): Info
    requires IndicesInRange(i, h)
  {
    match r.programOf(ProgramOf(i, h))
    case UnknownProgram => Unknown
    case SystemProgram => if r.system(i, h).Some? then System(r.system(i, h).value) else Unknown
    case StakeProgram => if r.stake(i, h).Some? then Stake(r.stake(i, h).value) else Unknown
    case VoteProgram => if r.vote(i, h).Some? then Vote(r.vote(i, h).value) else Unknown
    case TokenProgram => if r.token(i, h).Some? then Token(r.token(i, h).value) else Unknown
    case AtaProgram => if r.ata(i, h) then AssociatedTokenAccount else Unknown
    case MemoProgram => Memo
    case AssertOwnerProgram => AssertOwner
    case ComputeBudgetProgram => if B.BudgetOf(i, h).Some? then Budget(B.BudgetOf(i, h).value) else Unknown
    case AgencProgram => if A.InfoOf(i, h).Some? then Agenc(A.InfoOf(i, h).value) else Unknown
  }

  function IsIgnored(r: Recogniser, i: Instruction, h: MessageHeader): bool
    requires IndicesInRange(i, h)
  {
    r.programOf(ProgramOf(i, h)).TokenProgram? && r.tokenIgnored(i, h)
  }

  function Warns(r: Recogniser, i: Instruction, h: MessageHeader): bool
    requires IndicesInRange(i, h)
  {
    r.programOf(ProgramOf(i, h)).TokenProgram? && r.token(i, h).Some? && r.tokenWarns(i, h)
  }

  /** The instruction has a place in the display list. */
  ghost function IsDisplayed(r: Recogniser, i: Instruction, h: MessageHeader): bool
    requires IndicesInRange(i, h)
  {
    !IsIgnored(r, i, h) && InfoOf(r, i, h) != Memo && InfoOf(r, i, h) != AssertOwner
  }

  ghost predicate AllInRange(ins: seq<Instruction>, h: MessageHeader) {
    forall k :: 0 <= k < |ins| ==> IndicesInRange(ins[k], h)
  }

  ghost function Infos(r: Recogniser, ins: seq<Instruction>, h: MessageHeader): seq<Info>
    requires AllInRange(ins, h)
  {
    seq(|ins|, k requires 0 <= k < |ins| => InfoOf(r, ins[k], h))
  }

  /** The display list: in order, all instructions that have a place in it. */
  ghost function Displayed(r: Recogniser, ins: seq<Instruction>, h: MessageHeader): (d: seq<Info>)
    requires AllInRange(ins, h)
    ensures |d| <= |ins|
  {
    if |ins| == 0 then []
    else
      var n := |ins| - 1;
      Displayed(r, ins[..n], h) + if IsDisplayed(r, ins[n], h) then [InfoOf(r, ins[n], h)] else []
  }

  ghost predicate AnyWarns(r: Recogniser, ins: seq<Instruction>, h: MessageHeader)
    requires AllInRange(ins, h)
  {
    exists k :: 0 <= k < |ins| && Warns(r, ins[k], h)
  }

  // ---------- recognising one instruction ----------

  /** The switch over the programs. */
  method Recognise(r: Recogniser, i: Instruction, h: MessageHeader) returns (info: Info, ignored: bool, warns: bool)
    requires IndicesInRange(i, h)
    ensures info == InfoOf(r, i, h) && ignored == IsIgnored(r, i, h) && warns == Warns(r, i, h)
  {
    info, ignored, warns := Unknown, false, false;
    match r.programOf(ProgramOf(i, h))
    case AssertOwnerProgram => info := AssertOwner;
    case MemoProgram => info := Memo;
    case AtaProgram => if r.ata(i, h) { info := AssociatedTokenAccount; }
    case TokenProgram =>
      ignored := r.tokenIgnored(i, h);
      var token := r.token(i, h);
      if token.Some? {
        info := Token(token.value);
        warns := r.tokenWarns(i, h);
      }
    case SystemProgram =>
      var system := r.system(i, h);
      if system.Some? { info := System(system.value); }
    case StakeProgram =>
      var stake := r.stake(i, h);
      if stake.Some? { info := Stake(stake.value); }
    case VoteProgram =>
      var vote := r.vote(i, h);
      if vote.Some? { info := Vote(vote.value); }
    case ComputeBudgetProgram =>
      var rc, budget := B.ParseComputeBudgetInstructions(i, h);
      if rc == 0 { info := Budget(budget); }
    case AgencProgram =>
      var rc, agenc := A.ParseAgencInstructions(i, h);
      if rc == 0 { info := Agenc(agenc); }
    case UnknownProgram =>
  }

  // ---------- the loop ----------

  ghost function InRange(h: MessageHeader): (Instruction, nat) -> bool {
    (i: Instruction, k: nat) => IndicesInRange(i, h)
  }

  /** parse_validate_and_debug_instruction_accounts */
  method ReadInstructionChecked(p: P.Parser, h: MessageHeader) returns (rc: int, i: Instruction)
    requires p.Valid() && |h.prefix.pubkeys| == h.prefix.counts.pubkeysLength * PUBKEY_SIZE
    modifies p`at
    ensures p.Valid()
    ensures rc == 0 <==> ReadInstruction(old(p.Rest())).Done? && IndicesInRange(ReadInstruction(old(p.Rest())).value, h)
    ensures rc == 0 ==> i == ReadInstruction(old(p.Rest())).value && p.Rest() == ReadInstruction(old(p.Rest())).rest
  {
    rc, i := p.ParseInstruction();
    if rc != 0 {
      rc := -1;
      return;
    }
    rc := InstructionValidate(i, h);
    if rc != 0 {
      rc := -1;
    }
  }

  /** What the arrays hold once the instructions in done have been handled. */
  ghost predicate Collected(r: Recogniser, done: seq<Instruction>, h: MessageHeader, infos: seq<Info>,
                            display: seq<Info>, warns: bool) {
    && AllInRange(done, h) && infos == Infos(r, done, h) && display == Displayed(r, done, h)
    && (warns <==> AnyWarns(r, done, h))
  }

  lemma CollectedNext(r: Recogniser, done: seq<Instruction>, i: Instruction, h: MessageHeader, infos: seq<Info>,
                      display: seq<Info>, warns: bool)
    requires Collected(r, done, h, infos, display, warns) && IndicesInRange(i, h)
    ensures var info := InfoOf(r, i, h);
            Collected(r, done + [i], h, infos + [info],
                      display + (if IsDisplayed(r, i, h) then [info] else []), warns || Warns(r, i, h))
  {
    var next := done + [i];
    assert next[..|done|] == done;
    assert forall k :: 0 <= k < |done| ==> next[k] == done[k];
    WarnsNext(r, done, i, h);
  }

  lemma WarnsNext(r: Recogniser, done: seq<Instruction>, i: Instruction, h: MessageHeader)
    requires AllInRange(done, h) && IndicesInRange(i, h)
    ensures AllInRange(done + [i], h)
    ensures AnyWarns(r, done + [i], h) <==> AnyWarns(r, done, h) || Warns(r, i, h)
  {
    var next := done + [i];
    assert next[|done|] == i;
    if k :| 0 <= k < |done| && Warns(r, done[k], h) {
      assert Warns(r, next[k], h);
    }
  }

  /** The body of the loop, after an instruction has been read. The display list is never
      full: it is no longer than the list of instructions. */
  method Collect(r: Recogniser, i: Instruction, h: MessageHeader, infos: array<Info>, display: array<Info>,
                 insIdx: nat, count0: nat, warns0: bool, ghost done: seq<Instruction>)
      returns (count: nat, warns: bool)
    requires infos.Length == display.Length == MAX_INSTRUCTIONS && infos != display
    requires count0 <= insIdx < MAX_INSTRUCTIONS && IndicesInRange(i, h)
    requires Collected(r, done, h, infos[..insIdx], display[..count0], warns0)
    modifies infos, display
    ensures count <= insIdx + 1
    ensures Collected(r, done + [i], h, infos[..insIdx + 1], display[..count], warns)
  {
    CollectedNext(r, done, i, h, infos[..insIdx], display[..count0], warns0);
    ghost var before, shown := infos[..insIdx], display[..count0];
    var info, ignored, warning := Recognise(r, i, h);
    infos[insIdx] := info;
    warns := warns0 || warning;
    count := count0;
    if !ignored && info != Memo && info != AssertOwner {
      display[count] := info;
      count := count + 1;
    }
    assert infos[..insIdx + 1] == before + [info];
    assert display[..count] == shown + if IsDisplayed(r, i, h) then [info] else [];
  }

  /** The loop over the instructions. */
  method CollectAll(p: P.Parser, r: Recogniser, h: MessageHeader, infos: array<Info>, display: array<Info>,
                    ghost all: Parsed<seq<Instruction>>)
      returns (rc: int, count: nat, warns: bool, ghost done: seq<Instruction>)
    requires p.Valid() && |h.prefix.pubkeys| == h.prefix.counts.pubkeysLength * PUBKEY_SIZE
    requires infos.Length == display.Length == MAX_INSTRUCTIONS && infos != display
    requires h.instructionsLength <= MAX_INSTRUCTIONS && all == ReadInstructions(p.Rest(), h.instructionsLength)
    modifies p`at, infos, display
    ensures p.Valid()
    ensures rc == 0 <==> all.Done? && AllInRange(all.value, h)
    ensures rc == 0 ==> all == Done(done, p.Rest()) && count <= |done| == h.instructionsLength
                        && Collected(r, done, h, infos[..h.instructionsLength], display[..count], warns)
  {
    rc, count, warns, done := 0, 0, false, [];
    ghost var left: nat, ok := h.instructionsLength, InRange(h);
    WalkStart(all, ok);
    for insIdx := 0 to h.instructionsLength
      invariant rc == 0 && p.Valid() && count <= insIdx == |done| && left == h.instructionsLength - insIdx
      invariant Walking(all, done, ReadInstructions(p.Rest(), left), ok)
      invariant Collected(r, done, h, infos[..insIdx], display[..count], warns)
    {
      ghost var n := left;
      left := n - 1;
      WalkNext(all, done, p.Rest(), n, left, ok);
      var i;
      rc, i := ReadInstructionChecked(p, h);
      if rc != 0 {
        RefusedOf(all, h);
        return;
      }
      count, warns := Collect(r, i, h, infos, display, insIdx, count, warns, done);
      done := done + [i];
    }
    WalkEnd(all, done, p.Rest(), ok);
  }

  lemma RefusedOf(all: Parsed<seq<Instruction>>, h: MessageHeader)
    requires !Accepts(all, InRange(h))
    ensures !(all.Done? && AllInRange(all.value, h))
  {
  }

  // ---------- the message ----------

  /** A versioned message ends with a count of address tables, which must be zero. */
  ghost predicate TailAccepted(versioned: bool, tail: seq<byte>) {
    if versioned then ReadLength(tail) == Done(0, []) else tail == []
  }

  method CheckTail(p: P.Parser, versioned: bool) returns (rc: int)
    requires p.Valid()
    modifies p`at
    ensures p.Valid() && (rc == 0 <==> TailAccepted(versioned, old(p.Rest())))
  {
    if versioned {
      var n;
      rc, n := p.ParseLength();
      if rc != 0 { return; }
      if n > 0 {
        return 1;
      }
    }
    var empty := p.IsEmpty();
    rc := if empty then 0 else 1;
  }

  method CheckKnown(infos: array<Info>, n: nat) returns (rc: int)
    requires n <= infos.Length
    ensures rc == 0 <==> Unknown !in infos[..n]
  {
    for i := 0 to n
      invariant Unknown !in infos[..i]
    {
      if infos[i].Unknown? {
        assert infos[..n][i] == Unknown;
        return -1;
      }
      assert infos[..i + 1] == infos[..i] + [infos[i]];
    }
    return 0;
  }

  /** What has to hold of a message before it is shown: display is its display list. */
  ghost predicate Understood(body: seq<byte>, h: MessageHeader, r: Recogniser, display: seq<Info>, warned: bool) {
    && 1 <= h.instructionsLength <= MAX_INSTRUCTIONS
    && var all := ReadInstructions(body, h.instructionsLength);
       all.Done? && AllInRange(all.value, h) && TailAccepted(h.prefix.versioned, all.rest)
       && Unknown !in Infos(r, all.value, h)
       && display == Displayed(r, all.value, h) && (warned <==> AnyWarns(r, all.value, h))
  }

  /** The message is shown as s, with a warning or not. */
  ghost predicate Shown(body: seq<byte>, h: MessageHeader, r: Recogniser, prints: (Pattern, seq<Info>) -> bool,
                        s: Screen, warned: bool) {
    exists display :: Understood(body, h, r, display, warned) && ShownAs(display, prints, s)
  }

  /** process_message_body up to print_transaction. */
  method Understand(body: seq<byte>, h: MessageHeader, r: Recogniser)
      returns (rc: int, display: seq<Info>, warned: bool)
    requires |h.prefix.pubkeys| == h.prefix.counts.pubkeysLength * PUBKEY_SIZE
    ensures rc == 0 ==> Understood(body, h, r, display, warned) && |display| <= MAX_INSTRUCTIONS
    ensures rc != 0 ==> forall d, w :: !Understood(body, h, r, d, w)
  {
    display, warned := [], false;
    if h.instructionsLength == 0 {
      return 1, display, warned;
    }
    if h.instructionsLength > MAX_INSTRUCTIONS {
      return 1, display, warned;
    }
    var infos := new Info[MAX_INSTRUCTIONS](_ => Unknown);
    var shown := new Info[MAX_INSTRUCTIONS](_ => Unknown);
    var p := new P.Parser(body);
    ghost var all := ReadInstructions(body, h.instructionsLength);
    ghost var done;
    var count, warns;
    rc, count, warns, done := CollectAll(p, r, h, infos, shown, all);
    if rc != 0 { return; }
    rc := CheckTail(p, h.prefix.versioned);
    if rc != 0 { return; }
    rc := CheckKnown(infos, h.instructionsLength);
    if rc != 0 { return; }
    display, warned := shown[..count], warns;
  }

  /** process_message_body: shows a message exactly when every byte and every instruction of
      it is accounted for. */
  method ProcessMessageBody(body: seq<byte>, h: MessageHeader, r: Recogniser, prints: (Pattern, seq<Info>) -> bool)
      returns (screen: Option<Screen>, warned: bool)
    requires |h.prefix.pubkeys| == h.prefix.counts.pubkeysLength * PUBKEY_SIZE
    ensures screen.Some? ==> Shown(body, h, r, prints, screen.value, warned)
    ensures screen.None? ==> forall s, w :: !Shown(body, h, r, prints, s, w)
  {
    var rc, display;
    rc, display, warned := Understand(body, h, r);
    if rc != 0 {
      return None, warned;
    }
    screen := PrintTransaction(display, prints);
  }

  // ---------- what is shown ----------

  /** An instruction without a place in the display list is a memo, an assert-owner or an
      ignored token extension; all the others are in the list, in order. */
  lemma {:induction false} DisplayedIsFiltered(r: Recogniser, ins: seq<Instruction>, h: MessageHeader, k: nat)
    requires AllInRange(ins, h) && k < |ins|
    ensures IsDisplayed(r, ins[k], h) ==>
              AllInRange(ins[..k], h)
              && |Displayed(r, ins[..k], h)| < |Displayed(r, ins, h)|
              && Displayed(r, ins, h)[|Displayed(r, ins[..k], h)|] == InfoOf(r, ins[k], h)
    ensures !IsDisplayed(r, ins[k], h) ==>
              var p := r.programOf(h.prefix.pubkeys[32 * ins[k].programIdIndex..32 * ins[k].programIdIndex + 32]);
              p.MemoProgram? || p.AssertOwnerProgram? || (p.TokenProgram? && r.tokenIgnored(ins[k], h))
    decreases |ins|
  {
    var n := |ins| - 1;
    if k < n {
      DisplayedIsFiltered(r, ins[..n], h, k);
      assert ins[..n][..k] == ins[..k];
    }
  }

  /** Conversely every entry of the list is a displayed instruction, at its place. */
  lemma {:induction false} DisplayedComesFrom(r: Recogniser, ins: seq<Instruction>, h: MessageHeader, m: nat)
      returns (k: nat)
    requires AllInRange(ins, h) && m < |Displayed(r, ins, h)|
    ensures k < |ins| && IsDisplayed(r, ins[k], h) && AllInRange(ins[..k], h)
    ensures |Displayed(r, ins[..k], h)| == m && Displayed(r, ins, h)[m] == InfoOf(r, ins[k], h)
    decreases |ins|
  {
    var n := |ins| - 1;
    if m < |Displayed(r, ins[..n], h)| {
      k := DisplayedComesFrom(r, ins[..n], h, m);
      assert ins[..n][..k] == ins[..k];
    } else {
      k := n;
    }
  }

  /** Nothing is hidden: every instruction of a message that is shown is a memo, an
      assert-owner or an ignored token extension, or it is the nonce advance, a
      compute-budget instruction, or one of the instructions shown, all in their order. */
  lemma {:induction false} EveryInstructionAccounted(body: seq<byte>, h: MessageHeader, r: Recogniser,
                                                     prints: (Pattern, seq<Info>) -> bool, s: Screen, warned: bool)
    requires Shown(body, h, r, prints, s, warned)
    ensures var ins := ReadInstructions(body, h.instructionsLength).value;
            |Displayed(r, ins, h)| == Skipped(s) + |s.infos|
            && forall k :: 0 <= k < |ins| ==>
                 AllInRange(ins[..k], h)
                 && (var key := h.prefix.pubkeys[32 * ins[k].programIdIndex..32 * ins[k].programIdIndex + 32];
                     var p := r.programOf(key);
                     p.MemoProgram? || p.AssertOwnerProgram? || (p.TokenProgram? && r.tokenIgnored(ins[k], h))
                     || Accounted(InfoOf(r, ins[k], h), |Displayed(r, ins[..k], h)|, s))
  {
    var ins := ReadInstructions(body, h.instructionsLength).value;
    AllAccounted(Displayed(r, ins, h), prints, s);
    forall k | 0 <= k < |ins|
      ensures AllInRange(ins[..k], h)
      ensures var p := r.programOf(h.prefix.pubkeys[32 * ins[k].programIdIndex..32 * ins[k].programIdIndex + 32]);
              p.MemoProgram? || p.AssertOwnerProgram? || (p.TokenProgram? && r.tokenIgnored(ins[k], h))
              || Accounted(InfoOf(r, ins[k], h), |Displayed(r, ins[..k], h)|, s)
    {
      DisplayedIsFiltered(r, ins, h, k);
    }
  }

  /** And every instruction shown is one of the message. */
  lemma {:induction false} ShownIsInMessage(body: seq<byte>, h: MessageHeader, r: Recogniser,
                                            prints: (Pattern, seq<Info>) -> bool, s: Screen, warned: bool, m: nat)
      returns (k: nat)
    requires Shown(body, h, r, prints, s, warned) && m < |s.infos|
    ensures var ins := ReadInstructions(body, h.instructionsLength).value;
            k < |ins| && IsDisplayed(r, ins[k], h) && AllInRange(ins[..k], h)
            && |Displayed(r, ins[..k], h)| == Skipped(s) + m && InfoOf(r, ins[k], h) == s.infos[m]
  {
    var ins := ReadInstructions(body, h.instructionsLength).value;
    k := PlaceInMessage(r, ins, h, prints, s, m, Skipped(s) + m);
  }

  lemma {:induction false} PlaceInMessage(r: Recogniser, ins: seq<Instruction>, h: MessageHeader,
                                          prints: (Pattern, seq<Info>) -> bool, s: Screen, m: nat, p: nat)
      returns (k: nat)
    requires AllInRange(ins, h) && ShownAs(Displayed(r, ins, h), prints, s) && m < |s.infos| && p == Skipped(s) + m
    ensures k < |ins| && IsDisplayed(r, ins[k], h) && AllInRange(ins[..k], h)
            && |Displayed(r, ins[..k], h)| == p && InfoOf(r, ins[k], h) == s.infos[m]
  {
    PlaceShown(Displayed(r, ins, h), prints, s, m, p);
    k := DisplayedComesFrom(r, ins, h, p);
  }

  /** Every compute-budget instruction of a message carries its signature count. */
  lemma {:induction false} SignaturesShown(r: Recogniser, ins: seq<Instruction>, h: MessageHeader)
    requires AllInRange(ins, h)
    ensures forall k :: 0 <= k < |Displayed(r, ins, h)| && Displayed(r, ins, h)[k].Budget? ==>
                          Displayed(r, ins, h)[k].info.signatures == h.prefix.counts.required
    decreases |ins|
  {
    if |ins| > 0 {
      SignaturesShown(r, ins[..|ins| - 1], h);
    }
  }

  lemma {:induction false} SettingsSignatures(infos: seq<Info>, count: nat, required: byte)
    requires AllBudget(infos) && forall k :: 0 <= k < |infos| ==> infos[k].info.signatures == required
    ensures Settings(infos, count).signatures == if |infos| > 0 then required else 0
    decreases |infos|
  {
    if |infos| > 0 {
      SettingsSignatures(infos[..|infos| - 1], count, required);
    }
  }

  /** A fee in numbers: 5000 for each signature and, with a price p, the millionth part of p
      times the units; the units are the limit, or 200000 for each instruction up to 1400000;
      nothing without a price or a limit; and the rent of a token account that is created.
      The product fits 64 bits. */
  ghost predicate FeeIs(fee: int, signatures: int, price: Option<u64>, limit: Option<u32>, count: int, creates: bool) {
    var rent := if creates then 2039280 else 0;
    if price.None? then fee == rent + if limit.None? then 0 else 5000 * signatures
    else
      var u: int := if limit.Some? then limit.value
                    else if 200000 * count < 1400000 then 200000 * count else 1400000;
      price.value * u <= 0xFFFF_FFFF_FFFF_FFFF && fee == 5000 * signatures + price.value * u / 1000000 + rent
  }

  /** The fee shown with a message is that of the settings made in its display list. */
  lemma FeeOfMessage(body: seq<byte>, h: MessageHeader, r: Recogniser, prints: (Pattern, seq<Info>) -> bool,
                     s: Screen, warned: bool)
    requires Shown(body, h, r, prints, s, warned)
    ensures var f := FeeOf(AfterNonce(Displayed(r, ReadInstructions(body, h.instructionsLength).value, h)));
            FeeIs(s.fee, h.prefix.counts.required, f.price, f.limit, s.budgets + |s.infos|,
                  s.pattern.AtaCreateWithTransfer?)
  {
    var ins := ReadInstructions(body, h.instructionsLength).value;
    var list := Displayed(r, ins, h);
    SignaturesShown(r, ins, h);
    var rest := AfterNonce(list);
    SignaturesOfRun(list, rest, h.prefix.counts.required);
    SettingsInForce(list, prints, s);
    CountOf(rest);
    FeeOfSettings(s.fee, s.pattern, FeeOf(rest), h.prefix.counts.required, s.budgets + |s.infos|);
  }

  lemma CountOf(infos: seq<Info>)
    ensures var f := FeeOf(infos); f.limit.Some? || f.price.Some? ==> f.count == |infos|
  {
  }

  lemma FeeOfSettings(fee: nat, p: Pattern, f: B.FeeInfo, signatures: byte, count: nat)
    requires FeeShown(f, p) == Some(fee)
    requires f.limit.Some? || f.price.Some? ==> f.signatures == signatures && f.count == count
    ensures FeeIs(fee, signatures, f.price, f.limit, count, p.AtaCreateWithTransfer?)
  {
    var u: nat := if f.limit.Some? then f.limit.value
                  else if 200000 * f.count < 1400000 then 200000 * f.count else 1400000;
    B.MaxFeeIs(f, if f.price.Some? then f.price.value else 0, u);
  }

  lemma SignaturesOfRun(list: seq<Info>, rest: seq<Info>, required: byte)
    requires rest == AfterNonce(list)
    requires forall k :: 0 <= k < |list| && list[k].Budget? ==> list[k].info.signatures == required
    ensures var f := FeeOf(rest); f.limit.Some? || f.price.Some? ==> f.signatures == required
  {
    assert forall k :: 0 <= k < |rest| ==> rest[k] == list[k + |list| - |rest|];
    if |rest| > 1 {
      var run := rest[..LeadingBudgets(rest)];
      assert forall k :: 0 <= k < |run| ==> run[k] == rest[k];
      SettingsSignatures(run, |rest|, required);
    }
  }
}
