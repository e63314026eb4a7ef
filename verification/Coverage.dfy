/** What process_message_body of libsol/message.c shows of a message, written out over the
    programs that its keys name and the bytes of its instructions. */
module Coverage {
  import opened Bytes
  import opened Wire
  import opened Instructions
  import opened Dispatch
  import opened Message
  import B = ComputeBudget
  import A = Agenc

  // ---------- one instruction ----------

  /** What an instruction is recognised as, by the program of its key. */
  lemma InfoIs(r: Recogniser, i: Instruction, h: MessageHeader)
    requires IndicesInRange(i, h)
    ensures var p := r.programOf(h.prefix.pubkeys[32 * i.programIdIndex..32 * i.programIdIndex + 32]);
            var info := InfoOf(r, i, h);
            && (info.Memo? <==> p.MemoProgram?)
            && (info.AssertOwner? <==> p.AssertOwnerProgram?)
            && (info.AssociatedTokenAccount? <==> p.AtaProgram? && r.ata(i, h))
            && (info.System? <==> p.SystemProgram? && r.system(i, h).Some?)
            && (info.System? ==> info.system == r.system(i, h).value)
            && (info.Stake? <==> p.StakeProgram? && r.stake(i, h).Some?)
            && (info.Stake? ==> info.stake == r.stake(i, h).value)
            && (info.Vote? <==> p.VoteProgram? && r.vote(i, h).Some?)
            && (info.Vote? ==> info.vote == r.vote(i, h).value)
            && (info.Token? <==> p.TokenProgram? && r.token(i, h).Some?)
            && (info.Token? ==> info.token == r.token(i, h).value)
            && (info.Budget? <==> p.ComputeBudgetProgram? && B.ReadBudget(i.data).Done?)
            && (info.Budget? ==> info.info == B.BudgetInfo(B.ReadBudget(i.data).value, h.prefix.counts.required))
            && (info.Agenc? <==> p.AgencProgram? && A.InfoOf(i, h).Some?)
            && (info.Agenc? ==> info.agenc == A.InfoOf(i, h).value)
  {
  }

  /** The instructions without a place on the screen: those of the memo and assert-owner
      programs, and the token instructions whose parser sets the ignore flag. */
  lemma LeftOutIff(r: Recogniser, i: Instruction, h: MessageHeader)
    requires IndicesInRange(i, h)
    ensures var p := r.programOf(h.prefix.pubkeys[32 * i.programIdIndex..32 * i.programIdIndex + 32]);
            !IsDisplayed(r, i, h) <==>
              p.MemoProgram? || p.AssertOwnerProgram? || (p.TokenProgram? && r.tokenIgnored(i, h))
    ensures var p := r.programOf(h.prefix.pubkeys[32 * i.programIdIndex..32 * i.programIdIndex + 32]);
            Warns(r, i, h) <==> p.TokenProgram? && r.token(i, h).Some? && r.tokenWarns(i, h)
  {
    InfoIs(r, i, h);
  }

  // ---------- the places ----------

  /** The places of the displayed instructions in the message. */
  ghost function Places(r: Recogniser, ins: seq<Instruction>, h: MessageHeader): (at: seq<nat>)
    requires AllInRange(ins, h)
  {
    if |ins| == 0 then []
    else
      var n := |ins| - 1;
      Places(r, ins[..n], h) + if IsDisplayed(r, ins[n], h) then [n] else []
  }

  ghost predicate Ascending(at: seq<nat>, n: nat) {
    && (forall a :: 0 <= a < |at| ==> at[a] < n)
    && (forall a, b :: 0 <= a < b < |at| ==> at[a] < at[b])
  }

  /** The display list is what stands at these places. */
  ghost predicate StandsAt(r: Recogniser, ins: seq<Instruction>, h: MessageHeader, at: seq<nat>, list: seq<Info>)
    requires AllInRange(ins, h)
  {
    && Ascending(at, |ins|) && |list| == |at|
    && (forall a :: 0 <= a < |at| ==> list[a] == InfoOf(r, ins[at[a]], h))
    && (forall k :: 0 <= k < |ins| ==> (k in at <==> IsDisplayed(r, ins[k], h)))
  }

  lemma {:induction false} PlacesStand(r: Recogniser, ins: seq<Instruction>, h: MessageHeader)
    requires AllInRange(ins, h)
    ensures StandsAt(r, ins, h, Places(r, ins, h), Displayed(r, ins, h))
    decreases |ins|
  {
    if |ins| > 0 {
      var n := |ins| - 1;
      PlacesStand(r, ins[..n], h);
      StandsNext(r, ins, h, Places(r, ins[..n], h), Displayed(r, ins[..n], h), n);
    }
  }

  lemma {:induction false} StandsNext(r: Recogniser, ins: seq<Instruction>, h: MessageHeader, at: seq<nat>,
                                      list: seq<Info>, n: nat)
    requires AllInRange(ins, h) && |ins| == n + 1 && StandsAt(r, ins[..n], h, at, list)
    ensures StandsAt(r, ins, h, at + (if IsDisplayed(r, ins[n], h) then [n] else []),
                     list + (if IsDisplayed(r, ins[n], h) then [InfoOf(r, ins[n], h)] else []))
  {
    assert forall k :: 0 <= k < n ==> ins[..n][k] == ins[k];
    assert forall a :: 0 <= a < |at| ==> at[a] < n;
  }

  // ---------- a message that is shown ----------

  /** A message that is shown consists of one to six instructions, all recognised, and
      nothing else but a zero count of address tables if it is versioned. The instructions
      at the places at are, in order, a nonce advance or none, the compute-budget
      instructions, and the instructions shown; all the others are of the memo program,
      of the assert-owner program, or token instructions with the ignore flag. There is a
      warning exactly when a token instruction asks for one. */
  lemma {:induction false} ShownIsCovered(body: seq<byte>, h: MessageHeader, r: Recogniser,
                                          prints: (Pattern, seq<Info>) -> bool, s: Screen, warned: bool)
      returns (ins: seq<Instruction>, tail: seq<byte>, at: seq<nat>, first: nat)
    requires Shown(body, h, r, prints, s, warned)
    ensures 1 <= h.instructionsLength == |ins| <= 6 && ReadInstructions(body, |ins|) == Done(ins, tail)
    ensures if h.prefix.versioned then ReadLength(tail) == Done(0, []) else tail == []
    ensures |h.prefix.pubkeys| == 32 * h.prefix.counts.pubkeysLength
    ensures forall k :: 0 <= k < |ins| ==>
              ins[k].programIdIndex < h.prefix.counts.pubkeysLength
              && forall j :: 0 <= j < |ins[k].accounts| ==> ins[k].accounts[j] < h.prefix.counts.pubkeysLength
    ensures forall k :: 0 <= k < |ins| ==> IndicesInRange(ins[k], h) && !InfoOf(r, ins[k], h).Unknown?
    ensures forall a, b :: 0 <= a < b < |at| ==> at[a] < at[b]
    ensures forall a :: 0 <= a < |at| ==> at[a] < |ins|
    ensures forall k :: 0 <= k < |ins| ==>
              var p := r.programOf(h.prefix.pubkeys[32 * ins[k].programIdIndex..32 * ins[k].programIdIndex + 32]);
              (k !in at <==>
                 p.MemoProgram? || p.AssertOwnerProgram? || (p.TokenProgram? && r.tokenIgnored(ins[k], h)))
    ensures first == (if s.nonce then 1 else 0) + s.budgets && |at| == first + |s.infos|
    ensures s.nonce ==> InfoOf(r, ins[at[0]], h) == System(AdvanceNonceAccount)
    ensures forall a :: (if s.nonce then 1 else 0) <= a < first ==> InfoOf(r, ins[at[a]], h).Budget?
    ensures forall a :: first <= a < |at| ==> InfoOf(r, ins[at[a]], h) == s.infos[a - first]
    ensures warned <==>
              exists k :: 0 <= k < |ins|
                && var p := r.programOf(h.prefix.pubkeys[32 * ins[k].programIdIndex..32 * ins[k].programIdIndex + 32]);
                   p.TokenProgram? && r.token(ins[k], h).Some? && r.tokenWarns(ins[k], h)
  {
    ins, tail := ShownIsRead(body, h, r, prints, s, warned);
    at, first := ShownIsPlaced(r, ins, h, prints, s);
    WarnedIff(r, ins, h);
  }

  /** Every byte is read and every instruction is recognised. */
  lemma {:induction false} ShownIsRead(body: seq<byte>, h: MessageHeader, r: Recogniser,
                                       prints: (Pattern, seq<Info>) -> bool, s: Screen, warned: bool)
      returns (ins: seq<Instruction>, tail: seq<byte>)
    requires Shown(body, h, r, prints, s, warned)
    ensures 1 <= h.instructionsLength == |ins| <= 6 && ReadInstructions(body, |ins|) == Done(ins, tail)
    ensures if h.prefix.versioned then ReadLength(tail) == Done(0, []) else tail == []
    ensures AllInRange(ins, h) && forall k :: 0 <= k < |ins| ==> !InfoOf(r, ins[k], h).Unknown?
    ensures ShownAs(Displayed(r, ins, h), prints, s) && (warned <==> AnyWarns(r, ins, h))
  {
    var all := ReadInstructions(body, h.instructionsLength);
    ins, tail := all.value, all.rest;
    KnownAll(r, ins, h);
  }

  /** The list is a nonce advance or none, then compute-budget instructions up to the
      place first, then infos. */
  ghost predicate InOrder(list: seq<Info>, nonce: bool, first: nat, infos: seq<Info>) {
    && |list| == first + |infos|
    && (nonce ==> |list| > 0 && list[0] == System(AdvanceNonceAccount))
    && (forall a :: (if nonce then 1 else 0) <= a < first ==> list[a].Budget?)
    && (forall a :: first <= a < |list| ==> list[a] == infos[a - first])
  }

  lemma {:induction false} AccountedInOrder(list: seq<Info>, prints: (Pattern, seq<Info>) -> bool, s: Screen,
                                            first: nat)
    requires ShownAs(list, prints, s) && first == (if s.nonce then 1 else 0) + s.budgets
    ensures InOrder(list, s.nonce, first, s.infos)
  {
    NothingHidden(list, prints, s);
    PartsInOrder(list, s.nonce, AfterNonce(list)[..s.budgets], s.infos, first);
  }

  lemma PartsInOrder(list: seq<Info>, nonce: bool, run: seq<Info>, infos: seq<Info>, first: nat)
    requires list == (if nonce then [System(AdvanceNonceAccount)] else []) + run + infos && AllBudget(run)
    requires first == (if nonce then 1 else 0) + |run|
    ensures InOrder(list, nonce, first, infos)
  {
    var start := if nonce then 1 else 0;
    assert forall a :: start <= a < first ==> list[a] == run[a - start];
  }

  /** Every instruction is at its place or is left out. */
  lemma {:induction false} ShownIsPlaced(r: Recogniser, ins: seq<Instruction>, h: MessageHeader,
                                         prints: (Pattern, seq<Info>) -> bool, s: Screen)
      returns (at: seq<nat>, first: nat)
    requires AllInRange(ins, h) && ShownAs(Displayed(r, ins, h), prints, s)
    ensures Ascending(at, |ins|)
    ensures forall k :: 0 <= k < |ins| ==>
              var p := r.programOf(h.prefix.pubkeys[32 * ins[k].programIdIndex..32 * ins[k].programIdIndex + 32]);
              (k !in at <==>
                 p.MemoProgram? || p.AssertOwnerProgram? || (p.TokenProgram? && r.tokenIgnored(ins[k], h)))
    ensures first == (if s.nonce then 1 else 0) + s.budgets && |at| == first + |s.infos|
    ensures s.nonce ==> InfoOf(r, ins[at[0]], h) == System(AdvanceNonceAccount)
    ensures forall a :: (if s.nonce then 1 else 0) <= a < first ==> InfoOf(r, ins[at[a]], h).Budget?
    ensures forall a :: first <= a < |at| ==> InfoOf(r, ins[at[a]], h) == s.infos[a - first]
  {
    at, first := Places(r, ins, h), (if s.nonce then 1 else 0) + s.budgets;
    PlacesStand(r, ins, h);
    AccountedInOrder(Displayed(r, ins, h), prints, s, first);
    LeftOutAll(r, ins, h, at, Displayed(r, ins, h));
    InOrderAt(r, ins, h, at, Displayed(r, ins, h), s.nonce, first, s.infos);
  }

  lemma {:induction false} LeftOutAll(r: Recogniser, ins: seq<Instruction>, h: MessageHeader, at: seq<nat>,
                                      list: seq<Info>)
    requires AllInRange(ins, h) && StandsAt(r, ins, h, at, list)
    ensures forall k :: 0 <= k < |ins| ==>
              var p := r.programOf(h.prefix.pubkeys[32 * ins[k].programIdIndex..32 * ins[k].programIdIndex + 32]);
              (k !in at <==>
                 p.MemoProgram? || p.AssertOwnerProgram? || (p.TokenProgram? && r.tokenIgnored(ins[k], h)))
  {
    forall k | 0 <= k < |ins|
      ensures var p := r.programOf(h.prefix.pubkeys[32 * ins[k].programIdIndex..32 * ins[k].programIdIndex + 32]);
              k !in at <==>
                p.MemoProgram? || p.AssertOwnerProgram? || (p.TokenProgram? && r.tokenIgnored(ins[k], h))
    {
      LeftOutIff(r, ins[k], h);
    }
  }

  lemma {:induction false} InOrderAt(r: Recogniser, ins: seq<Instruction>, h: MessageHeader, at: seq<nat>,
                                     list: seq<Info>, nonce: bool, first: nat, infos: seq<Info>)
    requires AllInRange(ins, h) && StandsAt(r, ins, h, at, list) && InOrder(list, nonce, first, infos)
    ensures |at| == first + |infos|
    ensures nonce ==> |at| > 0 && InfoOf(r, ins[at[0]], h) == System(AdvanceNonceAccount)
    ensures forall a :: (if nonce then 1 else 0) <= a < first ==> InfoOf(r, ins[at[a]], h).Budget?
    ensures forall a :: first <= a < |at| ==> InfoOf(r, ins[at[a]], h) == infos[a - first]
  {
  }

  lemma {:induction false} WarnedIff(r: Recogniser, ins: seq<Instruction>, h: MessageHeader)
    requires AllInRange(ins, h)
    ensures AnyWarns(r, ins, h) <==>
              exists k :: 0 <= k < |ins|
                && var p := r.programOf(h.prefix.pubkeys[32 * ins[k].programIdIndex..32 * ins[k].programIdIndex + 32]);
                   p.TokenProgram? && r.token(ins[k], h).Some? && r.tokenWarns(ins[k], h)
  {
    forall k | 0 <= k < |ins|
      ensures var p := r.programOf(h.prefix.pubkeys[32 * ins[k].programIdIndex..32 * ins[k].programIdIndex + 32]);
              Warns(r, ins[k], h) <==> p.TokenProgram? && r.token(ins[k], h).Some? && r.tokenWarns(ins[k], h)
    {
      LeftOutIff(r, ins[k], h);
    }
  }

  lemma {:induction false} KnownAll(r: Recogniser, ins: seq<Instruction>, h: MessageHeader)
    requires AllInRange(ins, h) && Unknown !in Infos(r, ins, h)
    ensures forall k :: 0 <= k < |ins| ==> !InfoOf(r, ins[k], h).Unknown?
  {
    forall k | 0 <= k < |ins| ensures !InfoOf(r, ins[k], h).Unknown? {
      assert Infos(r, ins, h)[k] == InfoOf(r, ins[k], h);
    }
  }

  /** Conversely, a message of that shape is shown as its display list is. */
  lemma {:induction false} CoveredIsShown(body: seq<byte>, h: MessageHeader, r: Recogniser,
                                          prints: (Pattern, seq<Info>) -> bool, s: Screen,
                                          ins: seq<Instruction>, tail: seq<byte>)
    requires 1 <= h.instructionsLength == |ins| <= 6 && ReadInstructions(body, |ins|) == Done(ins, tail)
    requires if h.prefix.versioned then ReadLength(tail) == Done(0, []) else tail == []
    requires |h.prefix.pubkeys| == 32 * h.prefix.counts.pubkeysLength
    requires forall k :: 0 <= k < |ins| ==>
               ins[k].programIdIndex < h.prefix.counts.pubkeysLength
               && forall j :: 0 <= j < |ins[k].accounts| ==> ins[k].accounts[j] < h.prefix.counts.pubkeysLength
    requires forall k :: 0 <= k < |ins| ==> !InfoOf(r, ins[k], h).Unknown?
    requires ShownAs(Displayed(r, ins, h), prints, s)
    ensures exists warned :: Shown(body, h, r, prints, s, warned)
  {
    var warned := AnyWarns(r, ins, h);
    assert Understood(body, h, r, Displayed(r, ins, h), warned);
    assert Shown(body, h, r, prints, s, warned);
  }

  // ---------- the fee ----------

  /** The instruction sets the price to n: it is of the compute-budget program, and its data
      is a 3 and eight bytes with n, the least significant first. */
  ghost predicate SetsPriceTo(r: Recogniser, i: Instruction, h: MessageHeader, n: u64)
    requires IndicesInRange(i, h)
  {
    && r.programOf(h.prefix.pubkeys[32 * i.programIdIndex..32 * i.programIdIndex + 32]).ComputeBudgetProgram?
    && |i.data| >= 9 && i.data[0] == 3
    && n == LeastFirst(i.data[1], i.data[2], i.data[3], i.data[4])
            + 0x1_0000_0000 * LeastFirst(i.data[5], i.data[6], i.data[7], i.data[8])
  }

  /** The instruction sets the limit to n: a 2 and four bytes. */
  ghost predicate SetsLimitTo(r: Recogniser, i: Instruction, h: MessageHeader, n: u32)
    requires IndicesInRange(i, h)
  {
    && r.programOf(h.prefix.pubkeys[32 * i.programIdIndex..32 * i.programIdIndex + 32]).ComputeBudgetProgram?
    && |i.data| >= 5 && i.data[0] == 2 && n == LeastFirst(i.data[1], i.data[2], i.data[3], i.data[4])
  }

  lemma {:induction false} SettersIff(r: Recogniser, i: Instruction, h: MessageHeader, info: Info)
    requires IndicesInRange(i, h) && info == InfoOf(r, i, h)
    ensures forall n :: SetsPriceTo(r, i, h, n) <==> SetsPrice(info) && info.info.budget.price == n
    ensures forall n :: SetsLimitTo(r, i, h, n) <==> SetsLimit(info) && info.info.budget.limit == n
    ensures info.Budget? ==> IsDisplayed(r, i, h)
  {
    InfoIs(r, i, h);
    LeftOutIff(r, i, h);
    B.BudgetInBytes(i.data);
  }

  /** An instruction that comes after the place from, or any when from is -1, sets nothing
      that no later entry of the display list sets. */
  lemma {:induction false} LaterSetsNone(r: Recogniser, ins: seq<Instruction>, h: MessageHeader, at: seq<nat>,
                                         list: seq<Info>, sets: Info -> bool, from: int, j: nat)
    requires AllInRange(ins, h) && StandsAt(r, ins, h, at, list) && j < |ins| && -1 <= from < |at|
    requires (from >= 0 ==> at[from] < j) && forall b :: from < b < |list| ==> !sets(list[b])
    requires sets(InfoOf(r, ins[j], h)) ==> InfoOf(r, ins[j], h).Budget?
    ensures !sets(InfoOf(r, ins[j], h))
  {
    var info := InfoOf(r, ins[j], h);
    SettersIff(r, ins[j], h, info);
    if j in at {
      var b :| 0 <= b < |at| && at[b] == j;
      PlaceAfter(at, |ins|, from, b);
      assert list[b] == info;
    }
  }

  lemma PlaceAfter(at: seq<nat>, n: nat, from: int, b: nat)
    requires Ascending(at, n) && -1 <= from < |at| && b < |at| && (from >= 0 ==> at[from] < at[b])
    ensures b > from
  {
    assert from >= 0 ==> b != from;
  }

  /** The last instruction that sets a price sets it to this one, or there is none. */
  ghost predicate PriceInForce(r: Recogniser, ins: seq<Instruction>, h: MessageHeader, price: Option<u64>)
    requires AllInRange(ins, h)
  {
    match price
    case None => forall k, n :: 0 <= k < |ins| ==> !SetsPriceTo(r, ins[k], h, n)
    case Some(p) => exists k :: 0 <= k < |ins| && SetsPriceTo(r, ins[k], h, p)
                                && forall j, n :: k < j < |ins| ==> !SetsPriceTo(r, ins[j], h, n)
  }

  ghost predicate LimitInForce(r: Recogniser, ins: seq<Instruction>, h: MessageHeader, limit: Option<u32>)
    requires AllInRange(ins, h)
  {
    match limit
    case None => forall k, n :: 0 <= k < |ins| ==> !SetsLimitTo(r, ins[k], h, n)
    case Some(l) => exists k :: 0 <= k < |ins| && SetsLimitTo(r, ins[k], h, l)
                                && forall j, n :: k < j < |ins| ==> !SetsLimitTo(r, ins[j], h, n)
  }

  /** What is in force in the display list is in force in the message. */
  lemma {:induction false} PriceOfMessage(r: Recogniser, ins: seq<Instruction>, h: MessageHeader, at: seq<nat>,
                                          list: seq<Info>, price: Option<u64>)
    requires AllInRange(ins, h) && StandsAt(r, ins, h, at, list) && PriceIn(list, price)
    ensures PriceInForce(r, ins, h, price)
  {
    var sets := (info: Info) => SetsPrice(info);
    var from := -1;
    if price.Some? {
      var a: nat :| LastPriceAt(list, a, price.value);
      SettersIff(r, ins[at[a]], h, list[a]);
      from := a;
    }
    forall j, n | (if from < 0 then 0 else at[from] + 1) <= j < |ins| ensures !SetsPriceTo(r, ins[j], h, n) {
      SettersIff(r, ins[j], h, InfoOf(r, ins[j], h));
      LaterSetsNone(r, ins, h, at, list, sets, from, j);
    }
    assert price.Some? ==> SetsPriceTo(r, ins[at[from]], h, price.value);
  }

  lemma {:induction false} LimitOfMessage(r: Recogniser, ins: seq<Instruction>, h: MessageHeader, at: seq<nat>,
                                          list: seq<Info>, limit: Option<u32>)
    requires AllInRange(ins, h) && StandsAt(r, ins, h, at, list) && LimitIn(list, limit)
    ensures LimitInForce(r, ins, h, limit)
  {
    var sets := (info: Info) => SetsLimit(info);
    var from := -1;
    if limit.Some? {
      var a: nat :| LastLimitAt(list, a, limit.value);
      SettersIff(r, ins[at[a]], h, list[a]);
      from := a;
    }
    forall j, n | (if from < 0 then 0 else at[from] + 1) <= j < |ins| ensures !SetsLimitTo(r, ins[j], h, n) {
      SettersIff(r, ins[j], h, InfoOf(r, ins[j], h));
      LaterSetsNone(r, ins, h, at, list, sets, from, j);
    }
    assert limit.Some? ==> SetsLimitTo(r, ins[at[from]], h, limit.value);
  }

  /** The fee shown with a message, from its bytes: that of the price and limit in force, of
      the signatures its header asks for, and of the instructions displayed but the nonce
      advance. */
  lemma {:induction false} FeeFromBytes(body: seq<byte>, h: MessageHeader, r: Recogniser,
                                        prints: (Pattern, seq<Info>) -> bool, s: Screen, warned: bool)
      returns (ins: seq<Instruction>, price: Option<u64>, limit: Option<u32>)
    requires Shown(body, h, r, prints, s, warned)
    ensures ins == ReadInstructions(body, h.instructionsLength).value && AllInRange(ins, h)
    ensures PriceInForce(r, ins, h, price) && LimitInForce(r, ins, h, limit)
    ensures FeeIs(s.fee, h.prefix.counts.required, price, limit, s.budgets + |s.infos|,
                  s.pattern.AtaCreateWithTransfer?)
  {
    ins := ReadInstructions(body, h.instructionsLength).value;
    var list := Displayed(r, ins, h);
    var f := FeeOf(AfterNonce(list));
    price, limit := f.price, f.limit;
    FeeOfMessage(body, h, r, prints, s, warned);
    SettingsInForce(list, prints, s);
    PlacesStand(r, ins, h);
    PriceOfMessage(r, ins, h, Places(r, ins, h), list, price);
    LimitOfMessage(r, ins, h, Places(r, ins, h), list, limit);
  }
}
