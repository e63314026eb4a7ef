/** The two-phase protocol of src/handle_sign_message_preview.c: a message is reviewed
    once, and later signed with another blockhash. Stated on values and proved over
    whole runs. */
module Preview {
  import opened Bytes
  import opened Wire
  import opened Blockhash
  import opened Apdu
  import opened Assembly

  const SUCCESS := 0x9000
  const USER_REFUSAL := 0x6985
  const SDK_EXCEPTION := 0x6801
  const SDK_NOT_SUPPORTED := 0x6808
  const DELAYED_PREVIEW_NOT_FOUND := 0x6f10
  const DELAYED_HASH_MISMATCH := 0x6f11
  const DELAYED_LENGTH_MISMATCH := 0x6f12
  const DELAYED_DERIVATION_MISMATCH := 0x6f13

  /** What is kept of an approved preview. */
  datatype Fingerprint = Fingerprint(digest: seq<byte>, messageLength: nat, path: seq<u32>)

  /** hash is the digest function; swap says that the app was started by a swap. */
  datatype Config = Config(hash: seq<byte> -> seq<byte>, swap: bool)

  datatype State = State(cmd: Command, preview: Option<Fingerprint>, pending: bool)

  /** One exchange with the host or the user. The flags are what the model leaves to the
      environment: whether the handler gets as far as starting a review, whether the
      signature and the allocation succeed. */
  datatype Event =
    | Receives(apdu: seq<byte>, reviewable: bool, signs: bool)
    | Chooses(confirm: bool, signs: bool, allocates: bool)

  datatype Output =
    | Status(code: int)
    | Review
    | Signature(delayed: bool, path: seq<u32>, message: seq<byte>)
    | Unanswered

  const RESET := State(BLANK, None, false)

  predicate IsTransactionSigning(instruction: byte) {
    instruction in {DEPRECATED_SIGN_MESSAGE, SIGN_MESSAGE, SIGN_MESSAGE_PREVIEW}
  }

  /** verify_delayed_message_matches_preview */
  function VerifyCode(cfg: Config, fp: Fingerprint, c: Command): int {
    if |c.payload| != fp.messageLength then DELAYED_LENGTH_MISMATCH
    else if c.path != fp.path then DELAYED_DERIVATION_MISMATCH
    else if ReadHeader(c.payload).Fail? then INVALID_MESSAGE
    else if cfg.hash(Zeroed(c.payload)) != fp.digest then DELAYED_HASH_MISMATCH
    else SUCCESS
  }

  /** handle_sign_message_delayed_internal */
  function DelayedOutput(cfg: Config, preview: Option<Fingerprint>, c: Command, signs: bool): Output {
    if preview.None? then Status(DELAYED_PREVIEW_NOT_FOUND)
    else if cfg.swap then Status(SDK_NOT_SUPPORTED)
    else if VerifyCode(cfg, preview.value, c) != SUCCESS then Status(VerifyCode(cfg, preview.value, c))
    else if !signs then Status(SDK_EXCEPTION)
    else Signature(true, c.path, c.payload)
  }

  /** Whether handle_sign_message_parse_message and its off-chain counterpart can reach
      the review: the message header must parse and confirmation must not be waived. */
  predicate CanReview(c: Command, reviewable: bool, swap: bool) {
    && reviewable && !swap && !c.nonConfirm
    && ((IsTransactionSigning(c.instruction) && ReadHeader(c.payload).Done?)
        || c.instruction == SIGN_OFFCHAIN_MESSAGE)
  }

  /** The dispatch part of handle_apdu for a completed command. */
  function Dispatch(cfg: Config, c: Command, preview: Option<Fingerprint>, reviewable: bool, signs: bool)
    : (State, Output)
  {
    if c.instruction == SIGN_MESSAGE_DELAYED then
      (State(c, None, false), DelayedOutput(cfg, preview, c, signs))
    else if CanReview(c, reviewable, cfg.swap) then (State(c, None, true), Review)
    else (State(c, None, false), Unanswered)
  }

  /** review_choice: an approved preview stores its fingerprint, any other approved
      message is signed. */
  function ReviewChoice(cfg: Config, s: State, confirm: bool, signs: bool, allocates: bool): (State, Output) {
    if !confirm then (s.(pending := false), Status(USER_REFUSAL))
    else if s.cmd.previewMode then
      if allocates && ReadHeader(s.cmd.payload).Done? then
        (s.(pending := false,
            preview := Some(Fingerprint(cfg.hash(Zeroed(s.cmd.payload)), |s.cmd.payload|, s.cmd.path))),
         Status(SUCCESS))
      else (s.(pending := false, preview := None), Status(INVALID_MESSAGE))
    else if !signs then (s.(pending := false), Status(SDK_EXCEPTION))
    else (s.(pending := false), Signature(false, s.cmd.path, s.cmd.payload))
  }

  /** One step. The host waits for the answer to each request, so no APDU arrives while
      a review is pending, and there is no choice without a review. */
  function Step(cfg: Config, s: State, e: Event): (State, Output) {
    match e
    case Receives(apdu, reviewable, signs) =>
      if s.pending then (s, Unanswered)
      else
        var (c, reply) := Receive(s.cmd, apdu, cfg.swap);
        (match reply
         case Rejected(code) => (State(c, s.preview, false), Status(code))
         case Accepted => (State(c, s.preview, false), Status(SUCCESS))
         case Dispatched => Dispatch(cfg, c, s.preview, reviewable, signs))
    case Chooses(confirm, signs, allocates) =>
      if !s.pending then (s, Unanswered) else ReviewChoice(cfg, s, confirm, signs, allocates)
  }

  function After(cfg: Config, t: seq<Event>): State {
    if |t| == 0 then RESET else Step(cfg, After(cfg, t[..|t| - 1]), t[|t| - 1]).0
  }

  function OutputAt(cfg: Config, t: seq<Event>, i: nat): Output
    requires i < |t|
  {
    Step(cfg, After(cfg, t[..i]), t[i]).1
  }

  // ---------- what happened at a step of a run ----------

  /** Event i dispatched a command. */
  ghost predicate Dispatches(cfg: Config, t: seq<Event>, i: nat)
    requires i < |t|
  {
    var s := After(cfg, t[..i]);
    t[i].Receives? && !s.pending && Receive(s.cmd, t[i].apdu, cfg.swap).1 == Dispatched
  }

  /** Event i dispatched command c. */
  ghost predicate DispatchesCommand(cfg: Config, t: seq<Event>, i: nat, c: Command)
    requires i < |t|
  {
    Dispatches(cfg, t, i) && Receive(After(cfg, t[..i]).cmd, t[i].apdu, cfg.swap).0 == c
  }

  /** Event i is the user's approval of the preview of command c. */
  ghost predicate Approves(cfg: Config, t: seq<Event>, i: nat, c: Command)
    requires i < |t|
  {
    var s := After(cfg, t[..i]);
    && t[i].Chooses? && t[i].confirm && s.pending && s.cmd == c && c.previewMode
    && c.instruction == SIGN_MESSAGE_PREVIEW && ReadHeader(c.payload).Done?
  }

  ghost predicate NoDispatchSince(cfg: Config, t: seq<Event>, i: nat, j: nat)
    requires j <= |t|
  {
    forall k :: i < k < j ==> !Dispatches(cfg, t, k)
  }

  ghost predicate FingerprintOf(cfg: Config, fp: Fingerprint, c: Command) {
    && ReadHeader(c.payload).Done? && fp.digest == cfg.hash(Zeroed(c.payload))
    && fp.messageLength == |c.payload| && fp.path == c.path
  }

  /** The review of c that is on screen after run t was started by the dispatch at event j,
      the last one. */
  ghost predicate Reviews(cfg: Config, t: seq<Event>, j: nat, c: Command) {
    j < |t| && DispatchesCommand(cfg, t, j, c) && NoDispatchSince(cfg, t, j, |t|)
  }

  /** A stored fingerprint comes from the approval, at event i, of the preview c that was
      dispatched at event j, since when nothing was dispatched. */
  ghost predicate ComesFrom(cfg: Config, t: seq<Event>, fp: Fingerprint, j: nat, i: nat, c: Command) {
    j < i < |t| && Reviews(cfg, t, j, c) && Approves(cfg, t, i, c) && FingerprintOf(cfg, fp, c)
  }

  lemma SamePast(cfg: Config, t: seq<Event>, e: Event, i: nat)
    requires i < |t|
    ensures (t + [e])[..i] == t[..i] && (t + [e])[i] == t[i]
    ensures Dispatches(cfg, t + [e], i) == Dispatches(cfg, t, i)
    ensures forall c :: DispatchesCommand(cfg, t + [e], i, c) == DispatchesCommand(cfg, t, i, c)
    ensures forall c :: Approves(cfg, t + [e], i, c) == Approves(cfg, t, i, c)
  {
    assert (t + [e])[..i] == t[..i];
  }

  lemma KeepsReview(cfg: Config, t: seq<Event>, e: Event, j: nat, c: Command)
    requires Reviews(cfg, t, j, c) && !Dispatches(cfg, t + [e], |t|)
    ensures Reviews(cfg, t + [e], j, c)
  {
    SamePast(cfg, t, e, j);
    forall k | j < k < |t + [e]|
      ensures !Dispatches(cfg, t + [e], k)
    {
      if k < |t| {
        SamePast(cfg, t, e, k);
      }
    }
  }

  /** What a step does to a pending review: it stays until the user chooses, and only a
      dispatch starts one. */
  lemma PendingStep(cfg: Config, t: seq<Event>, e: Event)
    requires After(cfg, t + [e]).pending
    ensures (After(cfg, t).pending && After(cfg, t + [e]).cmd == After(cfg, t).cmd && !Dispatches(cfg, t + [e], |t|))
         || DispatchesCommand(cfg, t + [e], |t|, After(cfg, t + [e]).cmd)
  {
    assert (t + [e])[..|t|] == t && (t + [e])[|t|] == e;
  }

  ghost predicate PendingFrom(cfg: Config, t: seq<Event>, j: nat) {
    After(cfg, t).pending ==> Reviews(cfg, t, j, After(cfg, t).cmd)
  }

  lemma PendingNext(cfg: Config, t: seq<Event>, e: Event, i: nat) returns (j: nat)
    requires PendingFrom(cfg, t, i)
    ensures PendingFrom(cfg, t + [e], j)
  {
    j := |t|;
    if After(cfg, t + [e]).pending {
      PendingStep(cfg, t, e);
      if !DispatchesCommand(cfg, t + [e], |t|, After(cfg, t + [e]).cmd) {
        KeepsReview(cfg, t, e, i, After(cfg, t).cmd);
        j := i;
      }
    }
  }

  lemma {:induction false} PendingOrigin(cfg: Config, t: seq<Event>) returns (j: nat)
    ensures PendingFrom(cfg, t, j)
  {
    if |t| == 0 {
      j := 0;
    } else {
      j := PendingOrigin(cfg, t[..|t| - 1]);
      j := PendingNext(cfg, t[..|t| - 1], t[|t| - 1], j);
      assert t[..|t| - 1] + [t[|t| - 1]] == t;
    }
  }

  /** The command under review is the last one dispatched. */
  lemma PendingIsLastDispatched(cfg: Config, t: seq<Event>) returns (j: nat)
    requires After(cfg, t).pending
    ensures Reviews(cfg, t, j, After(cfg, t).cmd)
  {
    j := PendingOrigin(cfg, t);
  }

  /** The preview mark is set only on preview commands, and while a review is pending
      its message has a readable header or is an off-chain one. */
  ghost predicate MarkSound(s: State) {
    && (s.cmd.previewMode ==> s.cmd.instruction == SIGN_MESSAGE_PREVIEW)
    && (s.pending && s.cmd.previewMode ==> ReadHeader(s.cmd.payload).Done?)
    && (s.pending ==> s.preview.None?)
  }

  lemma MarkStep(c: Command, apdu: seq<byte>, swap: bool)
    requires c.previewMode ==> c.instruction == SIGN_MESSAGE_PREVIEW
    ensures var c' := Receive(c, apdu, swap).0; c'.previewMode ==> c'.instruction == SIGN_MESSAGE_PREVIEW
  {
    var r := Handle(c, apdu);
    if r.Ok? {
      var h := ParseHeader(apdu).value;
      if !WithoutPayload(h.instruction) {
        if IsFirst(h) {
          FirstEffect(c, h);
        } else {
          ExtensionEffect(c, h);
        }
      }
    }
  }

  lemma SoundStep(cfg: Config, s: State, e: Event)
    requires MarkSound(s)
    ensures MarkSound(Step(cfg, s, e).0)
  {
    if e.Receives? {
      MarkStep(s.cmd, e.apdu, cfg.swap);
    }
  }

  lemma {:induction false} MarkSoundAlways(cfg: Config, t: seq<Event>)
    ensures MarkSound(After(cfg, t))
  {
    if |t| > 0 {
      MarkSoundAlways(cfg, t[..|t| - 1]);
      SoundStep(cfg, After(cfg, t[..|t| - 1]), t[|t| - 1]);
    }
  }

  // ---------- safety over runs ----------

  /** A step that does not dispatch and is no approved preview keeps the fingerprint. */
  lemma FingerprintStep(cfg: Config, t: seq<Event>, e: Event, fp: Fingerprint)
    requires MarkSound(After(cfg, t)) && Step(cfg, After(cfg, t), e).0.preview == Some(fp)
    ensures (After(cfg, t).preview == Some(fp) && !Dispatches(cfg, t + [e], |t|))
         || (Approves(cfg, t + [e], |t|, After(cfg, t).cmd) && FingerprintOf(cfg, fp, After(cfg, t).cmd))
  {
    assert (t + [e])[..|t|] == t && (t + [e])[|t|] == e;
  }

  /** An approval does not dispatch, and what it approves was dispatched last. */
  lemma ApprovedOrigin(cfg: Config, t: seq<Event>, e: Event, c: Command) returns (j: nat)
    requires Approves(cfg, t + [e], |t|, c)
    ensures j < |t| && Reviews(cfg, t + [e], j, c)
  {
    assert (t + [e])[..|t|] == t && (t + [e])[|t|] == e;
    j := PendingIsLastDispatched(cfg, t);
    KeepsReview(cfg, t, e, j, c);
  }

  lemma {:induction false} FingerprintOrigin(cfg: Config, t: seq<Event>, fp: Fingerprint)
      returns (j: nat, i: nat, c: Command)
    requires After(cfg, t).preview == Some(fp)
    ensures ComesFrom(cfg, t, fp, j, i, c)
  {
    var before, e := t[..|t| - 1], t[|t| - 1];
    assert t == before + [e];
    MarkSoundAlways(cfg, before);
    FingerprintStep(cfg, before, e, fp);
    if After(cfg, before).preview == Some(fp) && !Dispatches(cfg, t, |before|) {
      j, i, c := FingerprintOrigin(cfg, before, fp);
      KeepsReview(cfg, before, e, j, c);
      SamePast(cfg, before, e, i);
    } else {
      i, c := |before|, After(cfg, before).cmd;
      j := ApprovedOrigin(cfg, before, e, c);
    }
  }

  /** Two different inputs with the same digest. */
  ghost predicate Collision(hash: seq<byte> -> seq<byte>, x: seq<byte>, y: seq<byte>) {
    x != y && hash(x) == hash(y)
  }

  /** w is m with at most its blockhash replaced. */
  ghost predicate OnlyBlockhashDiffers(m: seq<byte>, w: seq<byte>) {
    && ReadHeader(m).Done? && ReadHeader(w).Done? && BlockhashAt(m) == BlockhashAt(w)
    && w == WithBlockhash(m, ReadHeader(w).value.blockhash)
    && ReadHeader(w).value == ReadHeader(m).value.(blockhash := ReadHeader(w).value.blockhash)
    && ReadHeader(w).rest == ReadHeader(m).rest
  }

  /** What a delayed signature over this path and message rests on: command c was
      dispatched at event j, approved as a preview at event i, and no other command was
      dispatched in between or before event n. */
  ghost predicate Covered(cfg: Config, t: seq<Event>, n: nat, path: seq<u32>, msg: seq<byte>, j: nat, i: nat,
                          c: Command)
    requires n < |t|
  {
    && j < i < n && DispatchesCommand(cfg, t, j, c) && NoDispatchSince(cfg, t, j, n) && Approves(cfg, t, i, c)
    && c.path == path && |c.payload| == |msg| && ReadHeader(msg).Done?
    && (OnlyBlockhashDiffers(c.payload, msg) || Collision(cfg.hash, Zeroed(c.payload), Zeroed(msg)))
  }

  lemma DelayedStep(cfg: Config, s: State, e: Event, path: seq<u32>, msg: seq<byte>) returns (fp: Fingerprint)
    requires Step(cfg, s, e).1 == Signature(true, path, msg)
    ensures s.preview == Some(fp) && !cfg.swap && e.Receives? && !s.pending
    ensures Receive(s.cmd, e.apdu, cfg.swap).1 == Dispatched
    ensures fp.path == path && fp.messageLength == |msg| && ReadHeader(msg).Done? && cfg.hash(Zeroed(msg)) == fp.digest
  {
    fp := s.preview.value;
  }

  lemma PastOfPrefix(cfg: Config, t: seq<Event>, n: nat, i: nat)
    requires i < n < |t|
    ensures t[..n][..i] == t[..i] && t[..n][i] == t[i]
    ensures Dispatches(cfg, t[..n], i) == Dispatches(cfg, t, i)
    ensures forall c :: DispatchesCommand(cfg, t[..n], i, c) == DispatchesCommand(cfg, t, i, c)
    ensures forall c :: Approves(cfg, t[..n], i, c) == Approves(cfg, t, i, c)
  {
    assert t[..n][..i] == t[..i];
  }

  /** Safety: a delayed signature is produced only for the path and, up to the
      blockhash, the message of the last command dispatched before, and that was a preview
      the user approved; or a digest collision has been found. */
  lemma DelayedSignatureIsCovered(cfg: Config, t: seq<Event>, n: nat, path: seq<u32>, msg: seq<byte>)
    returns (j: nat, i: nat, c: Command)
    requires n < |t| && OutputAt(cfg, t, n) == Signature(true, path, msg)
    ensures Covered(cfg, t, n, path, msg, j, i, c)
  {
    var fp := DelayedStep(cfg, After(cfg, t[..n]), t[n], path, msg);
    j, i, c := FingerprintOrigin(cfg, t[..n], fp);
    PastOfPrefix(cfg, t, n, j);
    PastOfPrefix(cfg, t, n, i);
    forall k | j < k < n
      ensures !Dispatches(cfg, t, k)
    {
      PastOfPrefix(cfg, t, n, k);
    }
    if Zeroed(c.payload) == Zeroed(msg) {
      SameZeroed(c.payload, msg);
    }
  }

  /** Each approval yields at most one delayed signature: between two of them there is
      a fresh preview and its approval, which the second one rests on. */
  lemma OneSignaturePerApproval(cfg: Config, t: seq<Event>, m: nat, n: nat,
                                p: seq<u32>, x: seq<byte>, q: seq<u32>, y: seq<byte>)
    returns (j: nat, i: nat, c: Command)
    requires m < n < |t|
    requires OutputAt(cfg, t, m) == Signature(true, p, x) && OutputAt(cfg, t, n) == Signature(true, q, y)
    ensures m < j < n && Covered(cfg, t, n, q, y, j, i, c)
  {
    var fp := DelayedStep(cfg, After(cfg, t[..m]), t[m], p, x);
    j, i, c := DelayedSignatureIsCovered(cfg, t, n, q, y);
    assert Dispatches(cfg, t, m);
    if j == m {
      DelayedIsNoPreview(cfg, t, m, p, x);
    }
  }

  /** A delayed signature answers a delayed command, which is no preview. */
  lemma DelayedIsNoPreview(cfg: Config, t: seq<Event>, m: nat, p: seq<u32>, x: seq<byte>)
    requires m < |t| && OutputAt(cfg, t, m) == Signature(true, p, x)
    ensures Receive(After(cfg, t[..m]).cmd, t[m].apdu, cfg.swap).0.instruction == SIGN_MESSAGE_DELAYED
  {
  }

  /** Conversely, after an approved preview a delayed command with the same path is
      signed whatever its blockhash, as long as nothing else has changed. */
  lemma NewBlockhashIsAccepted(cfg: Config, c: Command, hash: seq<byte>, d: Command)
    requires ReadHeader(c.payload).Done? && |hash| == HASH_SIZE && !cfg.swap
    requires d.path == c.path && d.payload == WithBlockhash(c.payload, hash)
    ensures DelayedOutput(cfg, Some(Fingerprint(cfg.hash(Zeroed(c.payload)), |c.payload|, c.path)), d, true)
         == Signature(true, d.path, d.payload)
  {
    ReplaceBlockhash(c.payload, hash);
  }

  /** Nothing in u, which follows run t, dispatches a command: chunks of a command still in
      progress, rejected APDUs, answers to no question. */
  ghost predicate NothingDispatched(cfg: Config, t: seq<Event>, u: seq<Event>) {
    forall k :: |t| <= k < |t + u| ==> !Dispatches(cfg, t + u, k)
  }

  lemma {:induction false} FingerprintKept(cfg: Config, t: seq<Event>, u: seq<Event>)
    requires NothingDispatched(cfg, t, u) && !After(cfg, t).pending
    ensures After(cfg, t + u).preview == After(cfg, t).preview && !After(cfg, t + u).pending
    decreases |u|
  {
    if |u| == 0 {
      assert t + u == t;
    } else {
      var v := u[..|u| - 1];
      assert (t + u)[..|t + v|] == t + v && (t + u)[|t + v|] == u[|u| - 1];
      assert t + u == (t + v) + [u[|u| - 1]];
      forall k | |t| <= k < |t + v|
        ensures !Dispatches(cfg, t + v, k)
      {
        SamePast(cfg, t + v, u[|u| - 1], k);
      }
      FingerprintKept(cfg, t, v);
      assert !Dispatches(cfg, t + u, |t + v|);
    }
  }

  /** The state in which the user is asked about a preview. */
  ghost predicate AsksAboutPreview(cfg: Config, t: seq<Event>, c: Command) {
    After(cfg, t).pending && After(cfg, t).cmd == c && c.previewMode
  }

  /** The delayed command d that event e completes after run t is the one previewed in c,
      with another blockhash. */
  ghost predicate CompletesDelayed(cfg: Config, t: seq<Event>, e: Event, c: Command, hash: seq<byte>, d: Command) {
    && e.Receives? && e.signs && Receive(After(cfg, t).cmd, e.apdu, cfg.swap) == (d, Dispatched)
    && d.instruction == SIGN_MESSAGE_DELAYED && d.path == c.path
    && |hash| == HASH_SIZE && ReadHeader(c.payload).Done? && d.payload == WithBlockhash(c.payload, hash)
  }

  /** Progress, the converse of safety: once a preview is approved, the delayed command for
      it is signed with any blockhash, however many chunks it comes in and whatever was
      rejected meanwhile, as long as no other command was dispatched. */
  lemma ApprovalIsHonoured(cfg: Config, t: seq<Event>, c: Command, signs: bool, u: seq<Event>, e: Event,
                           hash: seq<byte>, d: Command)
    requires !cfg.swap && AsksAboutPreview(cfg, t, c)
    requires var t1 := t + [Chooses(true, signs, true)];
             NothingDispatched(cfg, t1, u) && CompletesDelayed(cfg, t1 + u, e, c, hash, d)
    ensures var t2 := t + [Chooses(true, signs, true)] + u;
            OutputAt(cfg, t2 + [e], |t2|) == Signature(true, c.path, d.payload)
  {
    var a := Chooses(true, signs, true);
    var t1 := t + [a];
    MarkSoundAlways(cfg, t);
    assert t1[..|t|] == t && t1[|t|] == a;
    assert After(cfg, t1) == Step(cfg, After(cfg, t), a).0;
    FingerprintKept(cfg, t1, u);
    var t2 := t1 + u;
    assert (t2 + [e])[..|t2|] == t2 && (t2 + [e])[|t2|] == e;
    NewBlockhashIsAccepted(cfg, c, hash, d);
  }

  // ---------- what the commands hold ----------

  /** The APDUs of a run that were handled: those that did not come while a review was
      pending. */
  function Handled(cfg: Config, t: seq<Event>): seq<seq<byte>> {
    if |t| == 0 then []
    else
      var before, e := t[..|t| - 1], t[|t| - 1];
      if e.Receives? && !After(cfg, before).pending then Handled(cfg, before) + [e.apdu] else Handled(cfg, before)
  }

  /** The device's command is what handling those APDUs one after the other makes of it. */
  lemma {:induction false} CommandIsRun(cfg: Config, t: seq<Event>)
    ensures After(cfg, t).cmd == Run(Handled(cfg, t), cfg.swap)
  {
    if |t| > 0 {
      var before, e := t[..|t| - 1], t[|t| - 1];
      CommandIsRun(cfg, before);
      var apdus := Handled(cfg, before);
      CommandStep(cfg, After(cfg, before), e);
      if e.Receives? && !After(cfg, before).pending {
        RunSnoc(apdus, e.apdu, cfg.swap);
      }
    }
  }

  lemma RunSnoc(apdus: seq<seq<byte>>, apdu: seq<byte>, swap: bool)
    ensures Run(apdus + [apdu], swap) == Receive(Run(apdus, swap), apdu, swap).0
  {
    assert (apdus + [apdu])[..|apdus|] == apdus;
  }

  lemma CommandStep(cfg: Config, s: State, e: Event)
    ensures Step(cfg, s, e).0.cmd == if e.Receives? && !s.pending then Receive(s.cmd, e.apdu, cfg.swap).0 else s.cmd
  {
  }

  ghost predicate NoneOpensAfter(apdus: seq<seq<byte>>, k: nat) {
    forall m :: k < m < |apdus| ==> !Opens(apdus[m])
  }

  /** A command dispatched at event i holds exactly what its chunks carried: it is
      assembled, in order, from the APDUs handled since the k-th. */
  lemma DispatchedMessage(cfg: Config, t: seq<Event>, i: nat, c: Command) returns (k: nat)
    requires i < |t| && DispatchesCommand(cfg, t, i, c) && !WithoutPayload(c.instruction)
    ensures SinceOpening(Handled(cfg, t[..i + 1]), k, c)
    ensures NoneOpensAfter(Handled(cfg, t[..i + 1]), k)
  {
    var before, upto := t[..i], t[..i + 1];
    assert upto[..i] == before && upto[i] == t[i];
    CommandIsRun(cfg, before);
    var apdus := Handled(cfg, upto);
    assert apdus == Handled(cfg, before) + [t[i].apdu];
    assert apdus[..|apdus| - 1] == Handled(cfg, before);
    DispatchedIsAssembled(apdus, cfg.swap);
    k :| SinceOpening(apdus, k, Run(apdus, cfg.swap)) && forall m :: k < m < |apdus| ==> !Opens(apdus[m]);
  }

  /** The message of a delayed signature is the in-order concatenation of the chunks of the
      delayed command, and the one reviewed before is that of the chunks of the preview. */
  lemma SignedMessageIsAssembled(cfg: Config, t: seq<Event>, n: nat, path: seq<u32>, msg: seq<byte>)
    returns (d: Command, k: nat, j: nat, i: nat, c: Command, l: nat)
    requires n < |t| && OutputAt(cfg, t, n) == Signature(true, path, msg)
    ensures SinceOpening(Handled(cfg, t[..n + 1]), k, d) && d.payload == msg && d.path == path
    ensures Covered(cfg, t, n, path, msg, j, i, c) && SinceOpening(Handled(cfg, t[..j + 1]), l, c)
  {
    DelayedIsNoPreview(cfg, t, n, path, msg);
    d := Receive(After(cfg, t[..n]).cmd, t[n].apdu, cfg.swap).0;
    k := DispatchedMessage(cfg, t, n, d);
    j, i, c := DelayedSignatureIsCovered(cfg, t, n, path, msg);
    l := DispatchedMessage(cfg, t, j, c);
  }
}
