/** Whole runs of APDUs: what a dispatched command holds, and the host-side splitter of
    examples/example-sign.js, which reassembly undoes. */
module Assembly {
  import opened Bytes
  import opened Apdu

  // ---------- runs ----------

  /** The answer to one APDU. */
  datatype Reply = Rejected(code: int) | Accepted | Dispatched

  /** The command part of handle_apdu in src/main_application.c: an error clears the
      command, a complete command is dispatched, and dispatching a preview outside a
      swap marks it as one. */
  function Receive(c: Command, apdu: seq<byte>, swap: bool): (Command, Reply) {
    match Handle(c, apdu)
    case Err(code) => (BLANK, Rejected(code))
    case Ok(c') =>
      if c'.phase == InProgress then (c', Accepted)
      else if c'.instruction == SIGN_MESSAGE_PREVIEW && !swap then (c'.(previewMode := true), Dispatched)
      else (c', Dispatched)
  }

  /** The command after a sequence of APDUs from reset. */
  function Run(apdus: seq<seq<byte>>, swap: bool): Command {
    if |apdus| == 0 then BLANK
    else Receive(Run(apdus[..|apdus| - 1], swap), apdus[|apdus| - 1], swap).0
  }

  function LastReply(apdus: seq<seq<byte>>, swap: bool): Reply
    requires |apdus| > 0
  {
    Receive(Run(apdus[..|apdus| - 1], swap), apdus[|apdus| - 1], swap).1
  }

  // ---------- what a chunk contributes ----------

  /** The payload bytes of a chunk: its data without path and length prefix. */
  function BodyOf(h: Header): seq<byte> {
    var d := if IsFirst(h) && WithPath(h.instruction) && TakePath(h).Ok? then TakePath(h).value.1 else DataOf(h);
    if h.instruction == DEPRECATED_SIGN_MESSAGE && |d| >= 2 then d[2..] else d
  }

  function Body(apdu: seq<byte>): seq<byte> {
    if ParseHeader(apdu).Err? then [] else BodyOf(ParseHeader(apdu).value)
  }

  function Bodies(chunks: seq<seq<byte>>): seq<byte> {
    if |chunks| == 0 then [] else Bodies(chunks[..|chunks| - 1]) + Body(chunks[|chunks| - 1])
  }

  ghost predicate Opens(apdu: seq<byte>) { ParseHeader(apdu).Ok? && IsFirst(ParseHeader(apdu).value) }

  /** A chunk of the command c: it carries the instruction and the confirm flag of c,
      and it opens a command exactly when it is the first. */
  ghost predicate IsChunkOf(apdu: seq<byte>, c: Command, first: bool) {
    var h := ParseHeader(apdu);
    && h.Ok? && h.value.instruction == c.instruction && (h.value.p1 == P1_NON_CONFIRM) == c.nonConfirm
    && h.value.deprecatedHost == c.deprecatedHost && IsFirst(h.value) == first
  }

  /** The path of a path-carrying command is the one in its opening chunk. */
  ghost predicate PathFrom(apdu: seq<byte>, c: Command) {
    WithPath(c.instruction) ==>
      (c.numPaths == 1 && ValidPath(c.path) && ParseHeader(apdu).Ok? && TakePath(ParseHeader(apdu).value).Ok?
       && c.path == TakePath(ParseHeader(apdu).value).value.0)
  }

  ghost predicate ChunksOf(chunks: seq<seq<byte>>, c: Command) {
    forall i :: 0 <= i < |chunks| ==> IsChunkOf(chunks[i], c, i == 0)
  }

  /** c has been assembled from exactly these chunks. */
  ghost predicate Assembled(chunks: seq<seq<byte>>, c: Command) {
    && |chunks| > 0 && ChunksOf(chunks, c) && PathFrom(chunks[0], c)
    && c.payload == Bodies(chunks) && |c.payload| < MAX_MESSAGE_LENGTH
  }

  lemma PathTaken(h: Header)
    requires TakePath(h).Ok?
    ensures ValidPath(TakePath(h).value.0)
  {
  }

  /** What appending and finishing change. */
  lemma AppendEffect(c: Command, h: Header, data: Option<seq<byte>>)
    requires Append(c, h, data).Ok? && |c.payload| < MAX_MESSAGE_LENGTH
    ensures var c' := Append(c, h, data).value;
            && c' == c.(payload := c.payload + (if data.Some? then data.value else []))
            && |c'.payload| < MAX_MESSAGE_LENGTH
  {
    assert c.payload + [] == c.payload;
  }

  lemma FirstWithPath(h: Header)
    requires HandleFirst(h).Ok? && WithPath(h.instruction) && IsFirst(h)
    ensures TakePath(h).Ok?
    ensures HandleFirst(h).value
         == Opened(h, InProgress).(numPaths := 1, path := TakePath(h).value.0, payload := BodyOf(h))
    ensures |HandleFirst(h).value.payload| < MAX_MESSAGE_LENGTH
  {
    var (path, d) := TakePath(h).value;
    AppendEffect(Opened(h, InProgress).(numPaths := 1, path := path), h, StripLength(h, Some(d)).value);
    assert [] + BodyOf(h) == BodyOf(h);
  }

  lemma FirstWithoutPath(h: Header)
    requires HandleFirst(h).Ok? && !WithPath(h.instruction)
    ensures HandleFirst(h).value == Opened(h, InProgress).(payload := BodyOf(h))
    ensures |HandleFirst(h).value.payload| < MAX_MESSAGE_LENGTH
  {
    AppendEffect(Opened(h, InProgress), h, StripLength(h, h.data).value);
    assert [] + BodyOf(h) == BodyOf(h);
  }

  lemma FirstEffect(c: Command, h: Header)
    requires HandleHeader(c, h).Ok? && !WithoutPayload(h.instruction) && IsFirst(h)
    ensures var c' := HandleHeader(c, h).value;
            && c' == Opened(h, c'.phase).(numPaths := c'.numPaths, path := c'.path, ataAccount := c'.ataAccount,
                                          payload := BodyOf(h))
            && |c'.payload| < MAX_MESSAGE_LENGTH && c'.phase != Uninitialized
    ensures WithPath(h.instruction) ==>
              TakePath(h).Ok? && HandleHeader(c, h).value.numPaths == 1
              && HandleHeader(c, h).value.path == TakePath(h).value.0
  {
    if WithPath(h.instruction) {
      FirstWithPath(h);
    } else {
      FirstWithoutPath(h);
    }
  }

  lemma FirstAssembles(c: Command, apdu: seq<byte>)
    requires Handle(c, apdu).Ok? && !WithoutPayload(Handle(c, apdu).value.instruction)
    requires Opens(apdu)
    ensures Assembled([apdu], Handle(c, apdu).value)
  {
    var h := ParseHeader(apdu).value;
    FirstEffect(c, h);
    if WithPath(h.instruction) {
      PathTaken(h);
    }
    assert [apdu][..0] == [];
    assert Bodies([apdu]) == Bodies([]) + Body(apdu);
  }

  lemma ExtensionEffect(c: Command, h: Header)
    requires HandleHeader(c, h).Ok? && !WithoutPayload(h.instruction) && !IsFirst(h)
    ensures var c' := HandleHeader(c, h).value;
            && c' == c.(phase := c'.phase, ataAccount := c'.ataAccount, payload := c.payload + BodyOf(h))
            && Extends(c, h) && |c'.payload| < MAX_MESSAGE_LENGTH && c'.phase != Uninitialized
  {
    ExtensionAppends(c, h);
  }

  lemma ExtensionAppends(c: Command, h: Header)
    requires HandleExtension(c, h).Ok? && |c.payload| < MAX_MESSAGE_LENGTH && !IsFirst(h)
    ensures Extends(c, h) && HandleExtension(c, h).value == c.(payload := c.payload + BodyOf(h))
    ensures |HandleExtension(c, h).value.payload| < MAX_MESSAGE_LENGTH
  {
    AppendEffect(c, h, StripLength(h, h.data).value);
  }

  /** An accepted APDU leaves a command that is in progress or complete. */
  lemma HandledPhase(c: Command, apdu: seq<byte>)
    requires Handle(c, apdu).Ok?
    ensures Handle(c, apdu).value.phase != Uninitialized
  {
    var h := ParseHeader(apdu).value;
    if !WithoutPayload(h.instruction) {
      if IsFirst(h) {
        FirstEffect(c, h);
      } else {
        ExtensionEffect(c, h);
      }
    }
  }

  lemma ExtensionAssembles(chunks: seq<seq<byte>>, c: Command, apdu: seq<byte>)
    requires Handle(c, apdu).Ok? && !WithoutPayload(Handle(c, apdu).value.instruction)
    requires !Opens(apdu) && Assembled(chunks, c)
    ensures Assembled(chunks + [apdu], Handle(c, apdu).value)
  {
    ExtensionEffect(c, ParseHeader(apdu).value);
    AssembledSnoc(chunks, c, apdu, Handle(c, apdu).value);
  }

  lemma AssembledSnoc(chunks: seq<seq<byte>>, c: Command, apdu: seq<byte>, c': Command)
    requires Assembled(chunks, c) && IsChunkOf(apdu, c, false) && |c'.payload| < MAX_MESSAGE_LENGTH
    requires c' == c.(phase := c'.phase, ataAccount := c'.ataAccount, payload := c.payload + Body(apdu))
    ensures Assembled(chunks + [apdu], c')
  {
    var all := chunks + [apdu];
    assert all[..|all| - 1] == chunks;
    forall i | 0 <= i < |all|
      ensures IsChunkOf(all[i], c', i == 0)
    {
      if i < |chunks| {
        assert IsChunkOf(chunks[i], c, i == 0);
      }
    }
  }

  /** The preview mark is no part of what is assembled. */
  lemma MarkKeeps(chunks: seq<seq<byte>>, c: Command)
    requires Assembled(chunks, c)
    ensures Assembled(chunks, c.(previewMode := true))
  {
    forall i | 0 <= i < |chunks|
      ensures IsChunkOf(chunks[i], c.(previewMode := true), i == 0)
    {
      assert IsChunkOf(chunks[i], c, i == 0);
    }
  }

  /** The command in progress or last completed, if it takes a payload, is assembled
      from the chunks of the run since some point k. */
  ghost predicate SinceOpening(apdus: seq<seq<byte>>, k: nat, c: Command) {
    k < |apdus| && Assembled(apdus[k..], c)
  }

  /** The state has been assembled from the chunks since some opening one. */
  ghost predicate HasSession(apdus: seq<seq<byte>>, c: Command) {
    c.phase != Uninitialized && !WithoutPayload(c.instruction) ==> exists k: nat :: SinceOpening(apdus, k, c)
  }

  lemma {:induction false} RunAssembles(apdus: seq<seq<byte>>, swap: bool)
    ensures HasSession(apdus, Run(apdus, swap))
  {
    if |apdus| > 0 {
      var before, apdu := apdus[..|apdus| - 1], apdus[|apdus| - 1];
      RunAssembles(before, swap);
      assert apdus == before + [apdu];
      ReceiveAssembles(before, Run(before, swap), apdu, swap);
    }
  }

  lemma ReceiveAssembles(before: seq<seq<byte>>, c: Command, apdu: seq<byte>, swap: bool)
    requires HasSession(before, c)
    ensures HasSession(before + [apdu], Receive(c, apdu, swap).0)
  {
    if Handle(c, apdu).Ok? && !WithoutPayload(Handle(c, apdu).value.instruction) {
      var k := StepAssembles(before, c, apdu);
      MarkKeeps((before + [apdu])[k..], Handle(c, apdu).value);
      assert SinceOpening(before + [apdu], k, Receive(c, apdu, swap).0);
    }
  }

  lemma StepAssembles(before: seq<seq<byte>>, c: Command, apdu: seq<byte>) returns (k: nat)
    requires Handle(c, apdu).Ok? && !WithoutPayload(Handle(c, apdu).value.instruction)
    requires HasSession(before, c)
    ensures k <= |before| && Assembled((before + [apdu])[k..], Handle(c, apdu).value)
  {
    if Opens(apdu) {
      FirstAssembles(c, apdu);
      k := |before|;
      assert (before + [apdu])[k..] == [apdu];
    } else {
      ExtensionEffect(c, ParseHeader(apdu).value);
      k :| SinceOpening(before, k, c);
      ExtensionAssembles(before[k..], c, apdu);
      assert (before + [apdu])[k..] == before[k..] + [apdu];
    }
  }

  /** Whenever a command with a payload is dispatched, its message is the in-order
      concatenation of the chunks since the last opening one, all with its instruction
      and confirm flag; every chunk after the opening one was accepted as an extension;
      the message leaves room for a terminator; and a path-carrying command holds one
      path of 2 to 5 words that starts 44'/501'. */
  lemma DispatchedIsAssembled(apdus: seq<seq<byte>>, swap: bool)
    requires |apdus| > 0 && LastReply(apdus, swap) == Dispatched
    requires !WithoutPayload(Run(apdus, swap).instruction)
    ensures Run(apdus, swap).phase == Complete
    ensures exists k: nat :: SinceOpening(apdus, k, Run(apdus, swap))
                             && forall i :: k < i < |apdus| ==> !Opens(apdus[i])
  {
    RunAssembles(apdus, swap);
    PhaseComplete(apdus, swap);
    assert HasSession(apdus, Run(apdus, swap));
    var k: nat :| SinceOpening(apdus, k, Run(apdus, swap));
    forall i | k < i < |apdus|
      ensures !Opens(apdus[i])
    {
      assert apdus[k..][i - k] == apdus[i];
    }
  }

  lemma PhaseComplete(apdus: seq<seq<byte>>, swap: bool)
    requires |apdus| > 0 && LastReply(apdus, swap) == Dispatched
    ensures Run(apdus, swap).phase == Complete
  {
    HandledPhase(Run(apdus[..|apdus| - 1], swap), apdus[|apdus| - 1]);
  }

  // ---------- the host ----------

  const MAX_PAYLOAD := 255

  /** One APDU as the transport frames it. */
  function HostApdu(instruction: byte, p1: byte, p2: byte, data: seq<byte>): seq<byte>
    requires |data| <= MAX_PAYLOAD
  {
    [CLA, instruction, p1, p2, |data|] + data
  }

  /** The chunks from an offset on; p2 carries the extension flag. */
  function ChunksFrom(instruction: byte, p1: byte, payload: seq<byte>, offset: nat, p2: byte): seq<seq<byte>>
    requires offset <= |payload| && p2 <= 1
    decreases |payload| - offset
  {
    if |payload| - offset > MAX_PAYLOAD then
      [HostApdu(instruction, p1, p2 + P2_MORE, payload[offset..offset + MAX_PAYLOAD])]
        + ChunksFrom(instruction, p1, payload, offset + MAX_PAYLOAD, P2_EXTEND)
    else [HostApdu(instruction, p1, p2, payload[offset..])]
  }

  function Chunks(instruction: byte, p1: byte, payload: seq<byte>): seq<seq<byte>> {
    ChunksFrom(instruction, p1, payload, 0, 0)
  }

  /** solanaSend: the APDUs it sends, in order. */
  method SolanaSend(instruction: byte, p1: byte, payload: seq<byte>) returns (sent: seq<seq<byte>>)
    ensures sent == Chunks(instruction, p1, payload)
  {
    var p2: byte := 0;
    var payloadOffset := 0;
    sent := [];
    if |payload| > MAX_PAYLOAD {
      while |payload| - payloadOffset > MAX_PAYLOAD
        invariant 0 <= payloadOffset <= |payload| && p2 <= 1
        invariant Chunks(instruction, p1, payload) == sent + ChunksFrom(instruction, p1, payload, payloadOffset, p2)
      {
        var buf := payload[payloadOffset..payloadOffset + MAX_PAYLOAD];
        var apdu := HostApdu(instruction, p1, p2 + P2_MORE, buf);
        payloadOffset := payloadOffset + MAX_PAYLOAD;
        ghost var tail := ChunksFrom(instruction, p1, payload, payloadOffset, P2_EXTEND);
        assert sent + ([apdu] + tail) == (sent + [apdu]) + tail;
        sent := sent + [apdu];
        p2 := P2_EXTEND;
      }
    }
    var buf := payload[payloadOffset..];
    sent := sent + [HostApdu(instruction, p1, p2, buf)];
  }

  // ---------- split and join ----------

  /** The device fed with APDUs one by one: every command value it goes through. */
  function Feed(c: Command, apdus: seq<seq<byte>>): Outcome<Command>
    decreases |apdus|
  {
    if |apdus| == 0 then Ok(c)
    else
      var c' :- Handle(c, apdus[0]);
      Feed(c', apdus[1..])
  }

  /** All APDUs but the last are answered with the command still in progress. */
  ghost predicate StaysInProgress(c: Command, apdus: seq<seq<byte>>)
    decreases |apdus|
  {
    |apdus| <= 1
    || (Handle(c, apdus[0]).Ok? && Handle(c, apdus[0]).value.phase == InProgress
        && StaysInProgress(Handle(c, apdus[0]).value, apdus[1..]))
  }

  /** Instructions the host sends with a path count and path in front and may split. */
  predicate IsHostSigning(instruction: byte) { SIGN_MESSAGE <= instruction <= SIGN_MESSAGE_DELAYED }

  lemma HostHeader(instruction: byte, p1: byte, p2: byte, data: seq<byte>)
    requires |data| <= MAX_PAYLOAD && IsModern(instruction)
    ensures ParseHeader(HostApdu(instruction, p1, p2, data))
         == Ok(Header(instruction, p1, p2, if |data| > 0 then Some(data) else None, false))
  {
    FrameIff(HostApdu(instruction, p1, p2, data),
             Header(instruction, p1, p2, if |data| > 0 then Some(data) else None, false));
  }

  lemma Flags()
    ensures !Bit(0, P2_EXTEND) && !Bit(0, P2_MORE) && !Bit(0, P2_IS_ATA_OR_TOKEN_ACCOUNT)
    ensures Bit(1, P2_EXTEND) && !Bit(1, P2_MORE) && !Bit(1, P2_IS_ATA_OR_TOKEN_ACCOUNT)
    ensures !Bit(2, P2_EXTEND) && Bit(2, P2_MORE)
    ensures Bit(3, P2_EXTEND) && Bit(3, P2_MORE)
  {
  }

  /** The command after the first chunk of a signing request, before finishing. */
  function Signing(instruction: byte, p1: byte, path: seq<u32>, payload: seq<byte>, phase: Phase): Command {
    BLANK.(phase := phase, instruction := instruction, nonConfirm := p1 == P1_NON_CONFIRM, numPaths := 1,
           path := path, payload := payload)
  }

  lemma ExtendingHeader(c: Command, h: Header, data: seq<byte>)
    requires IsHostSigning(h.instruction) && h.data == Some(data) && !h.deprecatedHost && !IsFirst(h)
    requires Extends(c, h) && c.numPaths == 1 && |c.payload| + |data| < MAX_MESSAGE_LENGTH
    ensures HandleHeader(c, h) == Ok(Finish(c.(payload := c.payload + data), h))
  {
  }

  /** An extending chunk appends its bytes. */
  lemma ExtendingChunk(instruction: byte, p1: byte, path: seq<u32>, done: seq<byte>, data: seq<byte>, more: bool)
    requires IsHostSigning(instruction) && 0 < |data| <= MAX_PAYLOAD && |done| + |data| < MAX_MESSAGE_LENGTH
    ensures Handle(Signing(instruction, p1, path, done, InProgress),
                   HostApdu(instruction, p1, if more then 3 else 1, data))
         == Ok(Signing(instruction, p1, path, done + data, if more then InProgress else Complete))
  {
    var p2 := if more then 3 else 1;
    HostHeader(instruction, p1, p2, data);
    Flags();
    ExtendingHeader(Signing(instruction, p1, path, done, InProgress),
                    Header(instruction, p1, p2, Some(data), false), data);
  }

  lemma FirstHeader(c: Command, h: Header, path: seq<u32>, data: seq<byte>)
    requires IsHostSigning(h.instruction) || h.instruction == GET_PUBKEY
    requires IsFirst(h) && |data| < MAX_MESSAGE_LENGTH
    requires TakePath(h) == Ok((path, data))
    ensures HandleHeader(c, h) == Ok(Finish(Opened(h, InProgress).(numPaths := 1, path := path, payload := data), h))
  {
    assert [] + data == data;
  }

  /** The first chunk gives the path and the bytes after it. */
  lemma FirstChunk(c: Command, instruction: byte, p1: byte, path: seq<u32>, data: seq<byte>, more: bool)
    requires IsHostSigning(instruction) && ValidPath(path) && |data| + |PathBytes(path)| < MAX_PAYLOAD
    ensures Handle(c, HostApdu(instruction, p1, if more then 2 else 0, [1] + (PathBytes(path) + data)))
         == Ok(Signing(instruction, p1, path, data, if more then InProgress else Complete))
  {
    var d := [1] + (PathBytes(path) + data);
    var p2 := if more then 2 else 0;
    HostHeader(instruction, p1, p2, d);
    Flags();
    var h := Header(instruction, p1, p2, Some(d), false);
    HostPath(h, path, data);
    FirstHeader(c, h, path, data);
  }

  lemma HostPath(h: Header, path: seq<u32>, data: seq<byte>)
    requires ValidPath(path) && !h.deprecatedHost && IsHostSigning(h.instruction)
    requires h.data == Some([1] + (PathBytes(path) + data))
    ensures TakePath(h) == Ok((path, data))
  {
    var d := h.data.value;
    assert d[1..] == PathBytes(path) + data;
    PathRoundTrip(path, data);
    assert d[1..][1 + 4 * |path|..] == data;
  }

  lemma {:induction false} JoinFrom(instruction: byte, p1: byte, path: seq<u32>, payload: seq<byte>, start: nat,
                                    offset: nat)
    requires IsHostSigning(instruction) && start <= offset < |payload| && |payload| - start < MAX_MESSAGE_LENGTH
    ensures var c := Signing(instruction, p1, path, payload[start..offset], InProgress);
            var rest := ChunksFrom(instruction, p1, payload, offset, P2_EXTEND);
            Feed(c, rest) == Ok(Signing(instruction, p1, path, payload[start..], Complete)) && StaysInProgress(c, rest)
    decreases |payload| - offset
  {
    var c := Signing(instruction, p1, path, payload[start..offset], InProgress);
    var rest := ChunksFrom(instruction, p1, payload, offset, P2_EXTEND);
    if |payload| - offset > MAX_PAYLOAD {
      var next := offset + MAX_PAYLOAD;
      ExtendingChunk(instruction, p1, path, payload[start..offset], payload[offset..next], true);
      assert payload[start..offset] + payload[offset..next] == payload[start..next];
      assert rest[1..] == ChunksFrom(instruction, p1, payload, next, P2_EXTEND);
      JoinFrom(instruction, p1, path, payload, start, next);
    } else {
      ExtendingChunk(instruction, p1, path, payload[start..offset], payload[offset..], false);
      assert payload[start..offset] + payload[offset..] == payload[start..];
      assert rest[1..] == [];
    }
  }

  /** Split and join are inverse: from any prior command, the chunks of a signing
      request are accepted one by one, the command stays in progress until the last
      chunk, and then is complete with exactly that path and message. */
  lemma SplitJoin(c: Command, instruction: byte, p1: byte, path: seq<u32>, msg: seq<byte>)
    requires IsHostSigning(instruction) && ValidPath(path) && |msg| < MAX_MESSAGE_LENGTH
    ensures var sent := Chunks(instruction, p1, [1] + (PathBytes(path) + msg));
            Feed(c, sent) == Ok(Signing(instruction, p1, path, msg, Complete)) && StaysInProgress(c, sent)
  {
    var head := |PathBytes(path)| + 1;
    var payload := [1] + (PathBytes(path) + msg);
    var sent := Chunks(instruction, p1, payload);
    assert payload[head..] == msg;
    if |payload| > MAX_PAYLOAD {
      var first := payload[head..MAX_PAYLOAD];
      assert payload[0..MAX_PAYLOAD] == [1] + (PathBytes(path) + first);
      FirstChunk(c, instruction, p1, path, first, true);
      assert sent[1..] == ChunksFrom(instruction, p1, payload, MAX_PAYLOAD, P2_EXTEND);
      JoinFrom(instruction, p1, path, payload, head, MAX_PAYLOAD);
    } else {
      assert payload[0..] == payload;
      FirstChunk(c, instruction, p1, path, msg, false);
      assert sent[1..] == [];
    }
  }

  /** The public key request is one APDU that holds the path alone. */
  lemma PubkeyJoin(c: Command, p1: byte, path: seq<u32>)
    requires ValidPath(path)
    ensures Chunks(GET_PUBKEY, p1, PathBytes(path)) == [HostApdu(GET_PUBKEY, p1, 0, PathBytes(path))]
    ensures Handle(c, HostApdu(GET_PUBKEY, p1, 0, PathBytes(path)))
         == Ok(Signing(GET_PUBKEY, p1, path, [], Complete))
  {
    var d := PathBytes(path);
    assert d[0..] == d;
    HostHeader(GET_PUBKEY, p1, 0, d);
    Flags();
    PathRoundTrip(path, []);
    assert d + [] == d;
    assert d[1 + 4 * |path|..] == [];
    FirstHeader(c, Header(GET_PUBKEY, p1, 0, Some(d), false), path, []);
  }
}
