/** The objects behind the preview protocol: the command, the allocated preview state and
    the handlers that update them, each against the step function of module Preview. */
module Device {
  import opened Bytes
  import opened Wire
  import opened Blockhash
  import P = Parser
  import opened Apdu
  import opened Assembly
  import opened ApduCommand
  import opened Preview

  /** preview_state_t */
  class PreviewState {
    var initialized: bool
    var digest: seq<byte>
    var messageLength: nat
    var path: seq<u32>

    /** The zeroed allocation. */
    constructor ()
      ensures !initialized && digest == [] && messageLength == 0 && path == []
    {
      initialized, digest, messageLength, path := false, [], 0, [];
    }
  }

  /** hash_message_with_zeroed_blockhash: locates the blockhash by parsing the header and
      hashes the three pieces without changing the message. */
  method HashMessageWithZeroedBlockhash(hash: seq<byte> -> seq<byte>, message: seq<byte>)
    returns (rc: int, output: seq<byte>)
    ensures rc == 0 <==> ReadHeader(message).Done?
    ensures rc == 0 ==> output == hash(Zeroed(message))
  {
    var parser := new P.Parser(message);
    var e, header, blockhashPtr := parser.ParseMessageHeader();
    if e != 0 {
      return -1, [];
    }
    var beforeLen := blockhashPtr;
    var afterOffset := beforeLen + HASH_SIZE;
    var input := message[..beforeLen];
    input := input + Zeros(HASH_SIZE);
    input := input + message[afterOffset..];
    rc, output := 0, hash(input);
  }

  /** Copies the derivation path word by word. */
  method CopyPath(path: seq<u32>, ps: PreviewState)
    requires ps.path == []
    modifies ps`path
    ensures ps.path == path
  {
    for i := 0 to |path|
      invariant ps.path == path[..i]
    {
      ps.path := ps.path + [path[i]];
    }
    assert path[..|path|] == path;
  }

  class Device {
    const cfg: Config
    const command: ApduCommand
    var previewState: PreviewState?
    /** A review is on screen and its answer is awaited. */
    var pending: bool

    ghost predicate Valid()
      reads this, command, previewState
    {
      command.Valid() && (previewState != null ==> previewState.initialized)
    }

    ghost function StoredFingerprint(): Option<Fingerprint>
      reads this, previewState
    {
      if previewState == null then None
      else Some(Fingerprint(previewState.digest, previewState.messageLength, previewState.path))
    }

    /** The device as a value. */
    ghost function View(): State
      reads this, command, command.message, previewState
      requires Valid()
    {
      State(command.View(), StoredFingerprint(), pending)
    }

    constructor (cfg: Config)
      ensures Valid() && View() == RESET && this.cfg == cfg
      ensures fresh(command) && fresh(command.message)
    {
      this.cfg := cfg;
      command := new ApduCommand();
      previewState := null;
      pending := false;
    }

    /** verify_delayed_message_matches_preview */
    method VerifyDelayedMessageMatchesPreview(ps: PreviewState) returns (code: int)
      requires Valid() && previewState == ps
      ensures code == VerifyCode(cfg, StoredFingerprint().value, command.View())
    {
      if command.messageLength != ps.messageLength {
        return DELAYED_LENGTH_MISMATCH;
      }
      if |command.path| != |ps.path| {
        return DELAYED_DERIVATION_MISMATCH;
      }
      for i := 0 to |command.path|
        invariant command.path[..i] == ps.path[..i]
      {
        if command.path[i] != ps.path[i] {
          return DELAYED_DERIVATION_MISMATCH;
        }
      }
      assert command.path == command.path[..|command.path|] == ps.path[..|ps.path|] == ps.path;
      var e, computed := HashMessageWithZeroedBlockhash(cfg.hash, command.message[..command.messageLength]);
      if e != 0 {
        return INVALID_MESSAGE;
      }
      if computed != ps.digest {
        return DELAYED_HASH_MISMATCH;
      }
      return SUCCESS;
    }

    /** handle_sign_message_delayed: whatever the outcome, the fingerprint is gone
        afterwards. signs is the outcome of the signature primitive. */
    method HandleSignMessageDelayed(signs: bool) returns (out: Output)
      requires Valid() && command.instruction == SIGN_MESSAGE_DELAYED && command.phase == Complete
      modifies this`previewState
      ensures Valid() && previewState == null
      ensures out == DelayedOutput(cfg, old(StoredFingerprint()), command.View(), signs)
    {
      if previewState == null || !previewState.initialized {
        out := Status(DELAYED_PREVIEW_NOT_FOUND);
      } else if cfg.swap {
        out := Status(SDK_NOT_SUPPORTED);
      } else {
        var code := VerifyDelayedMessageMatchesPreview(previewState);
        if code != SUCCESS {
          out := Status(code);
        } else if !signs {
          out := Status(SDK_EXCEPTION);
        } else {
          out := Signature(true, command.path, command.message[..command.messageLength]);
        }
      }
      previewState := null;
    }

    /** store_preview_fingerprint; allocates is the outcome of the allocator. A state kept
        from before is replaced. */
    method StorePreviewFingerprint(allocates: bool) returns (rc: int)
      requires Valid()
      modifies this`previewState
      ensures Valid()
      ensures rc == 0 <==> allocates && ReadHeader(command.View().payload).Done?
      ensures rc == 0 ==> previewState != null && fresh(previewState)
                          && FingerprintOf(cfg, StoredFingerprint().value, command.View())
      ensures rc != 0 ==> previewState == if allocates then null else old(previewState)
    {
      if !allocates {
        return -1;
      }
      var ps := new PreviewState();
      var e, digest := HashMessageWithZeroedBlockhash(cfg.hash, command.message[..command.messageLength]);
      if e != 0 {
        previewState := null;
        return -1;
      }
      ps.digest := digest;
      CopyPath(command.path, ps);
      ps.messageLength := command.messageLength;
      ps.initialized := true;
      previewState := ps;
      rc := 0;
    }

    /** review_choice of src/ui/sign_message_nbgl.c */
    method ReviewChoice(confirm: bool, signs: bool, allocates: bool) returns (out: Output)
      requires Valid() && pending && MarkSound(View())
      modifies this`previewState, this`pending
      ensures Valid() && (View(), out) == Step(cfg, old(View()), Chooses(confirm, signs, allocates))
      ensures !confirm ==> out == Status(0x6985) && previewState == null
      ensures confirm && command.previewMode ==> out == Status(if allocates then 0x9000 else 0x6a80)
      ensures confirm && !command.previewMode && !signs ==> out == Status(0x6801)
      ensures confirm && !command.previewMode && signs ==>
                out == Signature(false, command.path, command.message[..command.messageLength])
    {
      pending := false;
      if confirm {
        if command.previewMode {
          var rc := StorePreviewFingerprint(allocates);
          out := if rc == 0 then Status(SUCCESS) else Status(INVALID_MESSAGE);
        } else if !signs {
          out := Status(SDK_EXCEPTION);
        } else {
          out := Signature(false, command.path, command.message[..command.messageLength]);
        }
      } else {
        out := Status(USER_REFUSAL);
      }
    }

    /** handle_apdu of src/main_application.c. reviewable says whether the message
        handler, which is not part of this model, gets as far as the review. */
    method HandleApdu(apdu: seq<byte>, reviewable: bool, signs: bool) returns (out: Output)
      requires Valid() && !pending
      modifies this`previewState, this`pending, command, command.message
      ensures Valid() && (View(), out) == Step(cfg, old(View()), Receives(apdu, reviewable, signs))
    {
      var rc := ReceiveApdu(apdu);
      if rc != 0 {
        return Status(rc);
      }
      if command.phase == InProgress {
        return Status(SUCCESS);
      }
      out := DispatchCommand(reviewable, signs);
    }

    /** Hands the APDU to the command and clears the command on error. */
    method ReceiveApdu(apdu: seq<byte>) returns (rc: int)
      requires Valid()
      modifies command, command.message
      ensures Valid()
      ensures Handle(old(command.View()), apdu) == if rc == 0 then Ok(command.View()) else Err(rc)
      ensures rc == 0 ==> command.phase != Uninitialized
      ensures rc != 0 ==> command.View() == BLANK
    {
      rc := command.HandleMessage(apdu);
      if rc != 0 {
        command.Clear();
      } else {
        HandledPhase(old(command.View()), apdu);
      }
    }

    /** The part of handle_apdu that runs once a command is complete. */
    method DispatchCommand(reviewable: bool, signs: bool) returns (out: Output)
      requires Valid() && !pending && command.phase == Complete
      modifies this`previewState, this`pending, command`previewMode
      ensures Valid()
      ensures var c := old(command.View());
              var marked := if c.instruction == SIGN_MESSAGE_PREVIEW && !cfg.swap then c.(previewMode := true) else c;
              (View(), out) == Dispatch(cfg, marked, old(StoredFingerprint()), reviewable, signs)
    {
      if command.instruction != SIGN_MESSAGE_DELAYED {
        previewState := null;
      }
      if command.instruction == SIGN_MESSAGE_PREVIEW && !cfg.swap {
        command.previewMode := true;
      }
      if command.instruction == SIGN_MESSAGE_DELAYED {
        out := HandleSignMessageDelayed(signs);
      } else {
        out := StartReview(reviewable);
      }
    }

    /** The signing handlers up to the review. */
    method StartReview(reviewable: bool) returns (out: Output)
      requires Valid() && !pending
      modifies this`pending
      ensures Valid() && pending == CanReview(command.View(), reviewable, cfg.swap)
      ensures out == if pending then Review else Unanswered
    {
      out := Unanswered;
      if cfg.swap || command.nonConfirm || !reviewable {
        return;
      }
      if IsTransactionSigning(command.instruction) {
        var parser := new P.Parser(command.message[..command.messageLength]);
        var e, header, ptr := parser.ParseMessageHeader();
        if e != 0 {
          return;
        }
        pending, out := true, Review;
      } else if command.instruction == SIGN_OFFCHAIN_MESSAGE {
        pending, out := true, Review;
      }
    }
  }
}
