/** The answers of the device over whole runs, written out: what each event of the host or
    the user is answered with, and exactly when a signature is given. */
module Answers {
  import opened Bytes
  import opened Wire
  import opened Blockhash
  import opened Apdu
  import opened Assembly
  import opened Preview

  lemma {:induction false} AtEvent(cfg: Config, t: seq<Event>, n: nat)
    requires n < |t|
    ensures (After(cfg, t[..n + 1]), OutputAt(cfg, t, n)) == Step(cfg, After(cfg, t[..n]), t[n])
  {
    assert t[..n + 1][..n] == t[..n] && t[..n + 1][n] == t[n];
  }

  // ---------- what is under review ----------

  /** A pending review is of a complete command, outside a swap, whose confirmation was not
      waived: a transaction with a readable header, or an off-chain message. The preview
      mark tells a preview from the others. */
  lemma {:induction false} UnderReview(cfg: Config, t: seq<Event>)
    ensures var s := After(cfg, t);
            s.pending ==>
              !cfg.swap && s.preview.None? && s.cmd.phase == Complete && !s.cmd.nonConfirm
              && (s.cmd.previewMode <==> s.cmd.instruction == 0x08)
              && (s.cmd.instruction == 0x07
                  || (s.cmd.instruction in {0x03, 0x06, 0x08} && ReadHeader(s.cmd.payload).Done?))
  {
    MarkSoundAlways(cfg, t);
    if |t| > 0 {
      UnderReview(cfg, t[..|t| - 1]);
      if After(cfg, t).pending {
        ReviewStep(cfg, After(cfg, t[..|t| - 1]), t[|t| - 1]);
      }
    }
  }

  lemma {:induction false} ReviewStep(cfg: Config, s: State, e: Event)
    requires Step(cfg, s, e).0.pending && MarkSound(Step(cfg, s, e).0)
    ensures s.pending ==> Step(cfg, s, e).0 == s
    ensures var c := Step(cfg, s, e).0.cmd;
            !s.pending ==>
              !cfg.swap && c.phase == Complete && !c.nonConfirm && (c.previewMode <==> c.instruction == 0x08)
              && (c.instruction == 0x07 || (c.instruction in {0x03, 0x06, 0x08} && ReadHeader(c.payload).Done?))
  {
    if !s.pending {
      HandledPhase(s.cmd, e.apdu);
    }
  }

  // ---------- the user's answer ----------

  /** What the user's answer to a review does. A refusal is reported as such, and nothing is
      signed or kept; an approved preview is kept and not signed; any other approved message
      is signed. */
  lemma {:induction false} ChoiceAnswer(cfg: Config, t: seq<Event>, n: nat)
    requires n < |t| && t[n].Chooses?
    ensures var s, next, out := After(cfg, t[..n]), After(cfg, t[..n + 1]), OutputAt(cfg, t, n);
            && next.cmd == s.cmd && !next.pending
            && (!s.pending ==> out == Unanswered && next == s)
            && (s.pending && !t[n].confirm ==> out == Status(0x6985) && next.preview.None?)
            && (s.pending && t[n].confirm && s.cmd.previewMode && !t[n].allocates ==>
                  out == Status(0x6a80) && next.preview.None?)
            && (s.pending && t[n].confirm && s.cmd.previewMode && t[n].allocates ==>
                  out == Status(0x9000) && ReadHeader(s.cmd.payload).Done?
                  && next.preview == Some(Fingerprint(cfg.hash(Zeroed(s.cmd.payload)), |s.cmd.payload|, s.cmd.path)))
            && (s.pending && t[n].confirm && !s.cmd.previewMode && !t[n].signs ==>
                  out == Status(0x6801) && next.preview.None?)
            && (s.pending && t[n].confirm && !s.cmd.previewMode && t[n].signs ==>
                  out == Signature(false, s.cmd.path, s.cmd.payload) && next.preview.None?)
  {
    AtEvent(cfg, t, n);
    MarkSoundAlways(cfg, t[..n]);
  }

  /** A message is signed at once exactly when the user confirms the review of it, it is no
      preview, and the signature succeeds. */
  lemma {:induction false} PlainSignatureIff(cfg: Config, t: seq<Event>, n: nat, path: seq<u32>, msg: seq<byte>)
    requires n < |t|
    ensures var s := After(cfg, t[..n]);
            OutputAt(cfg, t, n) == Signature(false, path, msg)
            <==> t[n].Chooses? && t[n].confirm && t[n].signs && s.pending && s.cmd.instruction != 0x08
                 && s.cmd.path == path && s.cmd.payload == msg
  {
    UnderReview(cfg, t[..n]);
  }

  /** Over every run: what is signed at once is the message, under the path, of the last
      command dispatched, which the user reviewed and confirmed; it is assembled from the
      APDUs since the k-th. */
  lemma {:induction false} PlainSignatureIsReviewed(cfg: Config, t: seq<Event>, n: nat, path: seq<u32>, msg: seq<byte>)
      returns (j: nat, k: nat, c: Command)
    requires n < |t| && OutputAt(cfg, t, n) == Signature(false, path, msg)
    ensures t[n].Chooses? && t[n].confirm && t[n].signs && !cfg.swap
    ensures j < n && DispatchesCommand(cfg, t, j, c) && NoDispatchSince(cfg, t, j, n)
    ensures c.path == path && c.payload == msg && !c.nonConfirm
    ensures c.instruction == 0x07 || (c.instruction in {0x03, 0x06} && ReadHeader(msg).Done?)
    ensures SinceOpening(Handled(cfg, t[..j + 1]), k, c)
  {
    PlainSignatureIff(cfg, t, n, path, msg);
    UnderReview(cfg, t[..n]);
    c := After(cfg, t[..n]).cmd;
    j := PendingIsLastDispatched(cfg, t[..n]);
    PastOfPrefix(cfg, t, n, j);
    forall m | j < m < n ensures !Dispatches(cfg, t, m) {
      PastOfPrefix(cfg, t, n, m);
    }
    k := DispatchedMessage(cfg, t, j, c);
  }

  // ---------- the answers to APDUs ----------

  /** An APDU that completes no command is answered with its error or with success, and the
      fingerprint stays; while a review is pending nothing happens. */
  lemma {:induction false} PartAnswer(cfg: Config, t: seq<Event>, n: nat)
    requires n < |t| && t[n].Receives?
    ensures var s, next, out := After(cfg, t[..n]), After(cfg, t[..n + 1]), OutputAt(cfg, t, n);
            var r := Handle(s.cmd, t[n].apdu);
            && (s.pending ==> out == Unanswered && next == s)
            && (!s.pending && r.Err? ==> out == Status(r.code) && next == State(BLANK, s.preview, false))
            && (!s.pending && r.Ok? && r.value.phase == InProgress ==>
                  out == Status(0x9000) && next == State(r.value, s.preview, false))
  {
    AtEvent(cfg, t, n);
  }

  /** A completed command other than a delayed one drops the fingerprint, and a review is
      started exactly when its confirmation was not waived, no swap is running, and it is
      a transaction with a readable header or an off-chain message that the handler takes. */
  lemma {:induction false} CommandAnswer(cfg: Config, t: seq<Event>, n: nat, c: Command)
    requires n < |t| && t[n].Receives? && !After(cfg, t[..n]).pending
    requires Handle(After(cfg, t[..n]).cmd, t[n].apdu) == Ok(c) && c.phase == Complete && c.instruction != 0x09
    ensures var next, out := After(cfg, t[..n + 1]), OutputAt(cfg, t, n);
            && next.preview.None? && out == (if next.pending then Review else Unanswered)
            && next.cmd == c.(previewMode := c.previewMode || (c.instruction == 0x08 && !cfg.swap))
            && (next.pending <==> t[n].reviewable && !cfg.swap && !c.nonConfirm
                                  && (c.instruction == 0x07
                                      || (c.instruction in {0x03, 0x06, 0x08} && ReadHeader(c.payload).Done?)))
  {
    AtEvent(cfg, t, n);
  }

  /** A delayed command drops the fingerprint, and is answered with the code of the first
      check that fails, or with the signature. */
  lemma {:induction false} DelayedAnswer(cfg: Config, t: seq<Event>, n: nat, c: Command)
    requires n < |t| && t[n].Receives? && !After(cfg, t[..n]).pending
    requires Handle(After(cfg, t[..n]).cmd, t[n].apdu) == Ok(c) && c.phase == Complete && c.instruction == 0x09
    ensures After(cfg, t[..n + 1]) == State(c, None, false)
    ensures var stored, out := After(cfg, t[..n]).preview, OutputAt(cfg, t, n);
            if stored.None? then out == Status(0x6f10)
            else if cfg.swap then out == Status(0x6808)
            else if |c.payload| != stored.value.messageLength then out == Status(0x6f12)
            else if c.path != stored.value.path then out == Status(0x6f13)
            else if ReadHeader(c.payload).Fail? then out == Status(0x6a80)
            else if cfg.hash(Zeroed(c.payload)) != stored.value.digest then out == Status(0x6f11)
            else if !t[n].signs then out == Status(0x6801)
            else out == Signature(true, c.path, c.payload)
  {
    AtEvent(cfg, t, n);
  }

  /** A delayed signature is given exactly for a delayed command that matches the stored
      fingerprint. */
  lemma {:induction false} DelayedSignatureIff(cfg: Config, t: seq<Event>, n: nat, path: seq<u32>, msg: seq<byte>)
    requires n < |t|
    ensures var s := After(cfg, t[..n]);
            OutputAt(cfg, t, n) == Signature(true, path, msg)
            <==> t[n].Receives? && t[n].signs && !s.pending && !cfg.swap && s.preview.Some? && ReadHeader(msg).Done?
                 && s.preview.value == Fingerprint(cfg.hash(Zeroed(msg)), |msg|, path)
                 && Handle(s.cmd, t[n].apdu).Ok? && Handle(s.cmd, t[n].apdu).value.phase == Complete
                 && Handle(s.cmd, t[n].apdu).value.instruction == 0x09
                 && Handle(s.cmd, t[n].apdu).value.path == path && Handle(s.cmd, t[n].apdu).value.payload == msg
  {
    if t[n].Receives? {
      var s := After(cfg, t[..n]);
      var r := Handle(s.cmd, t[n].apdu);
      PartAnswer(cfg, t, n);
      if !s.pending && r.Ok? {
        HandledPhase(s.cmd, t[n].apdu);
        if r.value.phase == Complete {
          if r.value.instruction == 0x09 {
            DelayedAnswer(cfg, t, n, r.value);
          } else {
            CommandAnswer(cfg, t, n, r.value);
          }
        }
      }
    } else {
      ChoiceAnswer(cfg, t, n);
    }
  }
}
