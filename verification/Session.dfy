/** The two-phase protocol from the host's side: what solanaSend of examples/example-sign.js
    sends for a preview and for the delayed command ends in the signature. */
module Session {
  import opened Bytes
  import opened Wire
  import opened Blockhash
  import opened Apdu
  import opened Assembly
  import opened Preview

  /** The host sends its APDUs one by one. */
  function Sends(apdus: seq<seq<byte>>): seq<Event> {
    if |apdus| == 0 then [] else [Receives(apdus[0], true, true)] + Sends(apdus[1..])
  }

  /** A dispatched preview is marked. */
  function Marked(c: Command, swap: bool): Command {
    if c.instruction == SIGN_MESSAGE_PREVIEW && !swap then c.(previewMode := true) else c
  }

  /** In state s event e dispatches the command, and the fingerprint is still the one given. */
  ghost predicate Completes(cfg: Config, s: State, preview: Option<Fingerprint>, e: Event, done: Command) {
    && e.Receives? && e.reviewable && e.signs && !s.pending && s.preview == preview
    && Receive(s.cmd, e.apdu, cfg.swap) == (Marked(done, cfg.swap), Dispatched)
  }

  /** A command streamed in u and e after run t: nothing in u dispatches, and e completes. */
  ghost predicate Streams(cfg: Config, t: seq<Event>, u: seq<Event>, e: Event, done: Command) {
    NothingDispatched(cfg, t, u) && Completes(cfg, After(cfg, t + u), After(cfg, t).preview, e, done)
  }

  lemma AfterSnoc(cfg: Config, t: seq<Event>, e: Event)
    ensures After(cfg, t + [e]) == Step(cfg, After(cfg, t), e).0
    ensures OutputAt(cfg, t + [e], |t|) == Step(cfg, After(cfg, t), e).1
  {
    assert (t + [e])[..|t|] == t;
  }

  lemma StreamsLast(cfg: Config, t: seq<Event>, apdu: seq<byte>, done: Command)
    requires !After(cfg, t).pending && Handle(After(cfg, t).cmd, apdu) == Ok(done) && done.phase == Complete
    ensures Streams(cfg, t, [], Receives(apdu, true, true), done)
  {
    assert t + [] == t;
  }

  lemma {:induction false} SameDispatch(cfg: Config, x: seq<Event>, y: seq<Event>, k: nat)
    requires k < |x| && k < |y| && x[..k] == y[..k] && x[k] == y[k]
    ensures Dispatches(cfg, x, k) == Dispatches(cfg, y, k)
  {
  }

  lemma {:induction false} QuietCons(cfg: Config, t: seq<Event>, a: Event, u: seq<Event>)
    requires NothingDispatched(cfg, t + [a], u) && !Dispatches(cfg, t + [a], |t|)
    ensures NothingDispatched(cfg, t, [a] + u)
  {
    var all := t + ([a] + u);
    assert all == t + [a] + u;
    forall k | |t| <= k < |all| ensures !Dispatches(cfg, all, k) {
      if k == |t| {
        assert all[..|t|] == (t + [a])[..|t|];
        SameDispatch(cfg, all, t + [a], |t|);
      }
    }
  }

  lemma {:induction false} StreamsCons(cfg: Config, t: seq<Event>, a: Event, u: seq<Event>, e: Event, done: Command)
    requires Streams(cfg, t + [a], u, e, done) && !Dispatches(cfg, t + [a], |t|)
    requires After(cfg, t + [a]).preview == After(cfg, t).preview
    ensures Streams(cfg, t, [a] + u, e, done)
  {
    QuietCons(cfg, t, a, u);
    Assoc(t, [a], u);
  }

  /** An APDU after which the command is still in progress. */
  lemma {:induction false} ExtendsQuietly(cfg: Config, t: seq<Event>, apdu: seq<byte>, c: Command)
    requires !After(cfg, t).pending && Handle(After(cfg, t).cmd, apdu) == Ok(c) && c.phase == InProgress
    ensures var t1 := t + [Receives(apdu, true, true)];
            After(cfg, t1) == State(c, After(cfg, t).preview, false) && !Dispatches(cfg, t1, |t|)
  {
    AfterSnoc(cfg, t, Receives(apdu, true, true));
    assert (t + [Receives(apdu, true, true)])[..|t|] == t;
  }

  lemma {:induction false} FeedMore(c: Command, apdus: seq<seq<byte>>, done: Command) returns (next: Command)
    requires |apdus| > 1 && StaysInProgress(c, apdus) && Feed(c, apdus) == Ok(done)
    ensures Handle(c, apdus[0]) == Ok(next) && next.phase == InProgress
    ensures StaysInProgress(next, apdus[1..]) && Feed(next, apdus[1..]) == Ok(done)
  {
    next := Handle(c, apdus[0]).value;
  }

  /** APDUs that complete a command stream it. */
  lemma {:induction false} FedIsStreamed(cfg: Config, t: seq<Event>, c: Command, apdus: seq<seq<byte>>, done: Command)
      returns (u: seq<Event>, e: Event)
    requires !After(cfg, t).pending && After(cfg, t).cmd == c && |apdus| > 0 && StaysInProgress(c, apdus)
    requires Feed(c, apdus) == Ok(done) && done.phase == Complete
    ensures Sends(apdus) == u + [e] && Streams(cfg, t, u, e, done)
    decreases |apdus|
  {
    var a := Receives(apdus[0], true, true);
    if |apdus| == 1 {
      FeedOne(c, apdus, done);
      StreamsLast(cfg, t, apdus[0], done);
      u, e := [], a;
    } else {
      var next := FeedMore(c, apdus, done);
      ExtendsQuietly(cfg, t, apdus[0], next);
      u, e := FedIsStreamed(cfg, t + [a], next, apdus[1..], done);
      StreamsCons(cfg, t, a, u, e, done);
      Assoc([a], u, [e]);
      u := [a] + u;
    }
  }

  lemma FeedOne(c: Command, apdus: seq<seq<byte>>, done: Command)
    requires |apdus| == 1 && Feed(c, apdus) == Ok(done)
    ensures Handle(c, apdus[0]) == Ok(done)
  {
    assert apdus[1..] == [];
  }

  /** The payload of a signing request. */
  function Payload(path: seq<u32>, msg: seq<byte>): seq<byte>
    requires ValidPath(path)
  {
    [1] + (PathBytes(path) + msg)
  }

  /** The events of one solanaSend. */
  function SendsCommand(instruction: byte, p1: byte, path: seq<u32>, msg: seq<byte>): seq<Event>
    requires ValidPath(path)
  {
    Sends(Chunks(instruction, p1, Payload(path, msg)))
  }

  lemma {:induction false} CommandIsStreamed(cfg: Config, t: seq<Event>, instruction: byte, p1: byte,
                                             path: seq<u32>, msg: seq<byte>)
      returns (u: seq<Event>, e: Event)
    requires !After(cfg, t).pending && IsHostSigning(instruction) && ValidPath(path) && |msg| < MAX_MESSAGE_LENGTH
    ensures SendsCommand(instruction, p1, path, msg) == u + [e]
    ensures Streams(cfg, t, u, e, Signing(instruction, p1, path, msg, Complete))
  {
    SplitJoin(After(cfg, t).cmd, instruction, p1, path, msg);
    u, e := FedIsStreamed(cfg, t, After(cfg, t).cmd, Chunks(instruction, p1, Payload(path, msg)),
                          Signing(instruction, p1, path, msg, Complete));
  }

  /** From any state outside a review, a preview that the host sends in whatever chunks
      reaches the user, unless confirmation was waived. */
  lemma {:induction false} PreviewReachesUser(cfg: Config, t: seq<Event>, p1: byte, path: seq<u32>, msg: seq<byte>)
    requires !cfg.swap && !After(cfg, t).pending && ValidPath(path) && |msg| < MAX_MESSAGE_LENGTH
    requires p1 != P1_NON_CONFIRM && ReadHeader(msg).Done?
    ensures AsksAboutPreview(cfg, t + SendsCommand(SIGN_MESSAGE_PREVIEW, p1, path, msg),
                             Marked(Signing(SIGN_MESSAGE_PREVIEW, p1, path, msg, Complete), false))
  {
    var u, e := CommandIsStreamed(cfg, t, SIGN_MESSAGE_PREVIEW, p1, path, msg);
    Assoc(t, u, [e]);
    AfterSnoc(cfg, t + u, e);
    var c := Signing(SIGN_MESSAGE_PREVIEW, p1, path, msg, Complete);
    PreviewStep(cfg, After(cfg, t + u), e, After(cfg, t).preview, c);
  }

  lemma {:induction false} PreviewStep(cfg: Config, s: State, e: Event, preview: Option<Fingerprint>, c: Command)
    requires Completes(cfg, s, preview, e, c) && !cfg.swap && !c.nonConfirm
    requires c.instruction == SIGN_MESSAGE_PREVIEW && ReadHeader(c.payload).Done?
    ensures Step(cfg, s, e).0 == State(Marked(c, false), None, true)
  {
  }

  /** The last answer of the run is the delayed signature of msg. */
  ghost predicate EndsInSignature(cfg: Config, run: seq<Event>, path: seq<u32>, msg: seq<byte>) {
    |run| > 0 && OutputAt(cfg, run, |run| - 1) == Signature(true, path, msg)
  }

  /** The whole exchange: a preview is sent and approved, the delayed command is sent with
      another blockhash, and the last answer is the signature of that message. */
  lemma {:induction false} PreviewThenSign(cfg: Config, t: seq<Event>, p1: byte, q1: byte, path: seq<u32>,
                                           msg: seq<byte>, hash: seq<byte>, signs: bool)
    requires !cfg.swap && !After(cfg, t).pending && ValidPath(path) && |msg| < MAX_MESSAGE_LENGTH
    requires p1 != P1_NON_CONFIRM && ReadHeader(msg).Done? && |hash| == HASH_SIZE
    ensures EndsInSignature(cfg, t + SendsCommand(SIGN_MESSAGE_PREVIEW, p1, path, msg) + [Chooses(true, signs, true)]
                                 + SendsCommand(SIGN_MESSAGE_DELAYED, q1, path, WithBlockhash(msg, hash)),
                            path, WithBlockhash(msg, hash))
  {
    PreviewReachesUser(cfg, t, p1, path, msg);
    ApprovedThenSign(cfg, t + SendsCommand(SIGN_MESSAGE_PREVIEW, p1, path, msg),
                     Marked(Signing(SIGN_MESSAGE_PREVIEW, p1, path, msg, Complete), false), q1, path, msg, hash, signs);
  }

  lemma {:induction false} ApprovedThenSign(cfg: Config, t: seq<Event>, c: Command, q1: byte, path: seq<u32>,
                                            msg: seq<byte>, hash: seq<byte>, signs: bool)
    requires !cfg.swap && AsksAboutPreview(cfg, t, c) && c.path == path && c.payload == msg
    requires ValidPath(path) && |msg| < MAX_MESSAGE_LENGTH && ReadHeader(msg).Done? && |hash| == HASH_SIZE
    ensures EndsInSignature(cfg, t + [Chooses(true, signs, true)]
                                 + SendsCommand(SIGN_MESSAGE_DELAYED, q1, path, WithBlockhash(msg, hash)),
                            path, WithBlockhash(msg, hash))
  {
    var a := Chooses(true, signs, true);
    var w := WithBlockhash(msg, hash);
    AfterSnoc(cfg, t, a);
    SameLength(msg, hash);
    var u, e := CommandIsStreamed(cfg, t + [a], SIGN_MESSAGE_DELAYED, q1, path, w);
    var d := Signing(SIGN_MESSAGE_DELAYED, q1, path, w, Complete);
    assert CompletesDelayed(cfg, t + [a] + u, e, c, hash, d);
    ApprovalIsHonoured(cfg, t, c, signs, u, e, hash, d);
    assert t + [a] + (u + [e]) == t + [a] + u + [e];
  }

  lemma SameLength(m: seq<byte>, hash: seq<byte>)
    requires ReadHeader(m).Done? && |hash| == HASH_SIZE
    ensures |WithBlockhash(m, hash)| == |m|
  {
  }
}
