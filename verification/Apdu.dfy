/** src/apdu.c: APDU framing and the reassembly of split APDUs into one command. */
module Apdu {
  import opened Bytes

  const CLA := 0xE0
  const OFFSET_LC := 4
  const OFFSET_CDATA := 5
  const DEPRECATED_OFFSET_CDATA := 6
  const P1_NON_CONFIRM := 0x00
  const P2_EXTEND := 0x01
  const P2_MORE := 0x02
  const P2_IS_ATA_OR_TOKEN_ACCOUNT := 0x08
  const BIP32_HARDENED := 0x8000_0000
  const MAX_BIP32_PATH_LENGTH := 5

  const PACKET_DATA_SIZE := 15 * 1024 - 40 - 8
  const MAX_DERIVATION_PATH_BUFFER_LENGTH := 1 + MAX_BIP32_PATH_LENGTH * 4
  /** Segment size of the device SDK. */
  const USB_SEGMENT_SIZE := 64
  /** The packet and path sizes rounded up to whole segments. */
  const MAX_MESSAGE_LENGTH: nat :=
    ((PACKET_DATA_SIZE + MAX_DERIVATION_PATH_BUFFER_LENGTH - 1) / USB_SEGMENT_SIZE + 1) * USB_SEGMENT_SIZE

  const DEPRECATED_GET_APP_CONFIGURATION: byte := 0x01
  const DEPRECATED_GET_PUBKEY: byte := 0x02
  const DEPRECATED_SIGN_MESSAGE: byte := 0x03
  const GET_APP_CONFIGURATION: byte := 0x04
  const GET_PUBKEY: byte := 0x05
  const SIGN_MESSAGE: byte := 0x06
  const SIGN_OFFCHAIN_MESSAGE: byte := 0x07
  const SIGN_MESSAGE_PREVIEW: byte := 0x08
  const SIGN_MESSAGE_DELAYED: byte := 0x09
  const PROVIDE_INSTRUCTION_DESCRIPTOR: byte := 0x16
  const GET_CHALLENGE: byte := 0x20
  const PROVIDE_INFO: byte := 0x21
  const PROVIDE_DYNAMIC_DESCRIPTOR: byte := 0x22

  const SDK_INVALID_PARAMETER := 0x6802
  const INVALID_MESSAGE := 0x6a80
  const INVALID_MESSAGE_HEADER := 0x6a81
  const INVALID_MESSAGE_SIZE := 0x6a83
  const INVALID_DERIVATION_PATH := 0x6a84
  const UNIMPLEMENTED_INSTRUCTION := 0x6d00

  datatype Outcome<+T> = Err(code: int) | Ok(value: T) {
    predicate IsFailure() { Err? }
    function PropagateFailure<U>(): Outcome<U> requires Err? { Err(code) }
    function Extract(): T requires Ok? { value }
  }

  // ---------- framing ----------

  /** data is None for the NULL pointer of an APDU without data. */
  datatype Header = Header(instruction: byte, p1: byte, p2: byte, data: Option<seq<byte>>, deprecatedHost: bool)

  predicate IsDeprecated(instruction: byte) {
    DEPRECATED_GET_APP_CONFIGURATION <= instruction <= DEPRECATED_SIGN_MESSAGE
  }

  predicate IsModern(instruction: byte) {
    || GET_APP_CONFIGURATION <= instruction <= SIGN_MESSAGE_DELAYED
    || instruction == PROVIDE_INSTRUCTION_DESCRIPTOR
    || GET_CHALLENGE <= instruction <= PROVIDE_DYNAMIC_DESCRIPTOR
  }

  /** The size checks of parse_apdu_header once the layout is known. */
  function ParseBody(apdu: seq<byte>, offset: nat, maxLen: nat, deprecated: bool): Outcome<Header>
    requires |apdu| > 1 && offset >= OFFSET_CDATA && (deprecated ==> offset == DEPRECATED_OFFSET_CDATA)
  {
    if |apdu| < offset then Err(INVALID_MESSAGE_SIZE)
    else if |apdu| > maxLen then Err(INVALID_MESSAGE_SIZE)
    else
      var length: int := if deprecated then apdu[OFFSET_LC] as int * 0x100 + apdu[OFFSET_LC + 1] else apdu[OFFSET_LC];
      if |apdu| != length + offset then Err(INVALID_MESSAGE_SIZE)
      else
        var data := if length > 0 then Some(apdu[offset..]) else None;
        Ok(Header(apdu[1], apdu[2], apdu[3], data, deprecated))
  }

  /** parse_apdu_header */
  function ParseHeader(apdu: seq<byte>): Outcome<Header> {
    if |apdu| <= 1 then Err(INVALID_MESSAGE_SIZE)
    else if apdu[0] != CLA then Err(INVALID_MESSAGE_HEADER)
    else if IsDeprecated(apdu[1]) then ParseBody(apdu, DEPRECATED_OFFSET_CDATA, 0xFFFF, true)
    else if IsModern(apdu[1]) then ParseBody(apdu, OFFSET_CDATA, 0xFF + OFFSET_CDATA, false)
    else Err(UNIMPLEMENTED_INSTRUCTION)
  }

  function DataOf(h: Header): seq<byte> { if h.data.Some? then h.data.value else [] }

  /** Headers that an APDU can carry. */
  ghost predicate WellFramed(h: Header) {
    && (h.data.Some? ==> |h.data.value| > 0)
    && (if h.deprecatedHost then IsDeprecated(h.instruction) && |DataOf(h)| + 6 <= 0xFFFF
        else IsModern(h.instruction) && |DataOf(h)| <= 0xFF)
  }

  /** The APDU that carries a header. */
  function Frame(h: Header): seq<byte>
    requires |DataOf(h)| <= if h.deprecatedHost then 0xFFFF else 0xFF
  {
    if h.deprecatedHost
    then [CLA, h.instruction, h.p1, h.p2, |DataOf(h)| / 0x100, |DataOf(h)| % 0x100] + DataOf(h)
    else [CLA, h.instruction, h.p1, h.p2, |DataOf(h)|] + DataOf(h)
  }

  /** An APDU parses to a header exactly when it is the frame of that header. */
  lemma FrameIff(apdu: seq<byte>, h: Header)
    ensures ParseHeader(apdu) == Ok(h) <==> WellFramed(h) && apdu == Frame(h)
  {
    if WellFramed(h) && apdu == Frame(h) {
      FramedParses(apdu, h);
    }
    if ParseHeader(apdu) == Ok(h) {
      ParsedIsFramed(apdu, h);
    }
  }

  lemma FramedParses(apdu: seq<byte>, h: Header)
    requires WellFramed(h) && apdu == Frame(h)
    ensures ParseHeader(apdu) == Ok(h)
  {
    if h.deprecatedHost {
      assert apdu[6..] == DataOf(h);
    } else {
      assert apdu[5..] == DataOf(h);
    }
  }

  lemma ParsedIsFramed(apdu: seq<byte>, h: Header)
    requires ParseHeader(apdu) == Ok(h)
    ensures WellFramed(h) && apdu == Frame(h)
  {
    if h.deprecatedHost {
      assert apdu == [apdu[0], apdu[1], apdu[2], apdu[3], apdu[4], apdu[5]] + apdu[6..];
    } else {
      assert apdu == [apdu[0], apdu[1], apdu[2], apdu[3], apdu[4]] + apdu[5..];
    }
  }

  // ---------- instruction classes ----------

  predicate SplitAllowed(instruction: byte) {
    instruction in {DEPRECATED_SIGN_MESSAGE, SIGN_MESSAGE, SIGN_OFFCHAIN_MESSAGE, SIGN_MESSAGE_PREVIEW,
                    SIGN_MESSAGE_DELAYED, PROVIDE_INFO, PROVIDE_DYNAMIC_DESCRIPTOR}
  }

  predicate WithPath(instruction: byte) {
    instruction !in {PROVIDE_INFO, PROVIDE_DYNAMIC_DESCRIPTOR, PROVIDE_INSTRUCTION_DESCRIPTOR}
  }

  predicate WithoutPayload(instruction: byte) {
    instruction in {DEPRECATED_GET_APP_CONFIGURATION, GET_APP_CONFIGURATION, GET_CHALLENGE}
  }

  predicate OnlyPath(instruction: byte) {
    instruction in {DEPRECATED_GET_PUBKEY, GET_PUBKEY}
  }

  predicate Bit(p2: byte, mask: nat)
    requires mask > 0
  {
    p2 / mask % 2 == 1
  }

  // ---------- derivation paths ----------

  /** The i-th big-endian word after the length byte. */
  function PathWord(d: seq<byte>, i: nat): (w: u32)
    requires 1 + 4 * i + 4 <= |d|
  {
    d[1 + 4 * i] as int * 0x100_0000 + d[2 + 4 * i] as int * 0x1_0000
      + d[3 + 4 * i] as int * 0x100 + d[4 + 4 * i] as int
  }

  predicate ValidPath(path: seq<u32>) {
    && 2 <= |path| <= MAX_BIP32_PATH_LENGTH
    && path[0] == BIP32_HARDENED + 44 && path[1] == BIP32_HARDENED + 501
  }

  function PathWords(d: seq<byte>, n: nat): seq<u32>
    requires 1 + 4 * n <= |d|
  {
    seq(n, i requires 0 <= i < n => PathWord(d, i))
  }

  /** read_derivation_path; data is None for NULL. */
  function ReadPath(data: Option<seq<byte>>): Outcome<seq<u32>> {
    if data.None? then Err(SDK_INVALID_PARAMETER)
    else
      var d := data.value;
      if |d| == 0 then Err(INVALID_MESSAGE_SIZE)
      else if d[0] < 1 || d[0] > MAX_BIP32_PATH_LENGTH then Err(INVALID_MESSAGE)
      else if 1 + 4 * d[0] > |d| then Err(INVALID_MESSAGE_SIZE)
      else
        var path := PathWords(d, d[0]);
        if !ValidPath(path) then Err(INVALID_DERIVATION_PATH) else Ok(path)
  }

  function WordBytes(w: u32): seq<byte> {
    [w / 0x100_0000, w / 0x1_0000 % 0x100, w / 0x100 % 0x100, w % 0x100]
  }

  function WordsBytes(path: seq<u32>): (s: seq<byte>)
    ensures |s| == 4 * |path|
  {
    if |path| == 0 then [] else WordsBytes(path[..|path| - 1]) + WordBytes(path[|path| - 1])
  }

  /** A path as the host writes it: its length, then the words. */
  function PathBytes(path: seq<u32>): (s: seq<byte>)
    requires |path| < 0x100
    ensures |s| == 1 + 4 * |path|
  {
    [|path|] + WordsBytes(path)
  }

  lemma {:induction false} WordsBytesAt(path: seq<u32>, i: nat)
    requires i < |path|
    ensures WordsBytes(path)[4 * i..4 * i + 4] == WordBytes(path[i])
  {
    var r := path[..|path| - 1];
    if i < |r| {
      WordsBytesAt(r, i);
      assert WordsBytes(path)[4 * i..4 * i + 4] == WordsBytes(r)[4 * i..4 * i + 4];
    } else {
      assert WordsBytes(path)[4 * i..4 * i + 4] == WordBytes(path[i]);
    }
  }

  lemma WordOfBytes(w: u32, d: seq<byte>, i: nat)
    requires 1 + 4 * i + 4 <= |d| && d[1 + 4 * i..1 + 4 * i + 4] == WordBytes(w)
    ensures PathWord(d, i) == w
  {
    var b := d[1 + 4 * i..1 + 4 * i + 4];
    assert b[0] == d[1 + 4 * i] && b[1] == d[2 + 4 * i] && b[2] == d[3 + 4 * i] && b[3] == d[4 + 4 * i];
    WordSplit(w);
  }

  lemma WordSplit(w: u32)
    ensures w / 0x100_0000 * 0x100_0000 + w / 0x1_0000 % 0x100 * 0x1_0000 + w / 0x100 % 0x100 * 0x100 + w % 0x100 == w
  {
    assert w / 0x1_0000 == w / 0x100 / 0x100 && w / 0x100_0000 == w / 0x1_0000 / 0x100;
  }

  /** The path the host wrote is the path the device reads, whatever follows. */
  lemma PathRoundTrip(path: seq<u32>, t: seq<byte>)
    requires ValidPath(path)
    ensures ReadPath(Some(PathBytes(path) + t)) == Ok(path)
  {
    var d := PathBytes(path) + t;
    forall i | 0 <= i < |path|
      ensures PathWord(d, i) == path[i]
    {
      WordsBytesAt(path, i);
      assert d[1 + 4 * i..1 + 4 * i + 4] == WordsBytes(path)[4 * i..4 * i + 4];
      WordOfBytes(path[i], d, i);
    }
    assert PathWords(d, |path|) == path;
  }

  // ---------- the command as a value ----------

  datatype Phase = Uninitialized | InProgress | Complete

  datatype Command = Command(
    phase: Phase, instruction: byte, numPaths: byte, path: seq<u32>, nonConfirm: bool,
    previewMode: bool, deprecatedHost: bool, ataAccount: bool, payload: seq<byte>)

  /** The zeroed command. */
  const BLANK := Command(Uninitialized, 0, 0, [], false, false, false, false, [])

  function Opened(h: Header, phase: Phase): Command {
    BLANK.(phase := phase, instruction := h.instruction, nonConfirm := h.p1 == P1_NON_CONFIRM,
           deprecatedHost := h.deprecatedHost)
  }

  /** The chunk starts a new command. */
  predicate IsFirst(h: Header) { !Bit(h.p2, P2_EXTEND) || !SplitAllowed(h.instruction) }

  /** The checks an extending chunk must pass against the command in progress. */
  predicate Extends(c: Command, h: Header) {
    && c.phase == InProgress && c.instruction == h.instruction
    && c.nonConfirm == (h.p1 == P1_NON_CONFIRM) && c.deprecatedHost == h.deprecatedHost
  }

  /** The path fields of a first chunk, and the data left after them. */
  function TakePath(h: Header): Outcome<(seq<u32>, seq<byte>)> {
    if !h.deprecatedHost && h.instruction != GET_PUBKEY then
      if h.data.None? then Err(INVALID_MESSAGE_SIZE)
      else if |h.data.value| == 0 then Err(INVALID_MESSAGE_SIZE)
      else if h.data.value[0] != 1 then Err(INVALID_MESSAGE)
      else
        var d := h.data.value[1..];
        var path :- ReadPath(Some(d));
        Ok((path, d[1 + 4 * |path|..]))
    else
      var path :- ReadPath(h.data);
      Ok((path, h.data.value[1 + 4 * |path|..]))
  }

  /** Drops the length prefix of the deprecated signing instruction. */
  function StripLength(h: Header, data: Option<seq<byte>>): Outcome<Option<seq<byte>>> {
    if h.instruction != DEPRECATED_SIGN_MESSAGE then Ok(data)
    else if data.None? || |data.value| < 2 then Err(INVALID_MESSAGE_SIZE)
    else if |data.value| - 2 != data.value[0] as int * 0x100 + data.value[1] then Err(INVALID_MESSAGE_SIZE)
    else Ok(Some(data.value[2..]))
  }

  function Append(c: Command, h: Header, data: Option<seq<byte>>): Outcome<Command> {
    if data.Some? then
      if |c.payload| + |data.value| >= MAX_MESSAGE_LENGTH then Err(INVALID_MESSAGE_SIZE)
      else Ok(c.(payload := c.payload + data.value))
    else if !WithoutPayload(h.instruction) && !OnlyPath(h.instruction) then Err(INVALID_MESSAGE_SIZE)
    else Ok(c)
  }

  function Finish(c: Command, h: Header): Command {
    if Bit(h.p2, P2_MORE) then c else c.(phase := Complete, ataAccount := Bit(h.p2, P2_IS_ATA_OR_TOKEN_ACCOUNT))
  }

  function HandleFirst(h: Header): Outcome<Command> {
    var c := Opened(h, InProgress);
    if WithPath(h.instruction) then
      var (path, d) :- TakePath(h);
      var d' :- StripLength(h, Some(d));
      Append(c.(numPaths := 1, path := path), h, d')
    else
      var d' :- StripLength(h, h.data);
      Append(c, h, d')
  }

  function HandleExtension(c: Command, h: Header): Outcome<Command> {
    if !Extends(c, h) then Err(INVALID_MESSAGE)
    else if WithPath(h.instruction) && c.numPaths != 1 then Err(INVALID_MESSAGE)
    else
      var d :- StripLength(h, h.data);
      Append(c, h, d)
  }

  /** What apdu_handle_message does once the header is parsed. */
  function HandleHeader(c: Command, h: Header): Outcome<Command> {
    if WithoutPayload(h.instruction) then Ok(Opened(h, Complete))
    else
      var c' :- if IsFirst(h) then HandleFirst(h) else HandleExtension(c, h);
      Ok(Finish(c', h))
  }

  /** apdu_handle_message on the command as a value. */
  function Handle(c: Command, apdu: seq<byte>): Outcome<Command> {
    var h :- ParseHeader(apdu);
    HandleHeader(c, h)
  }

  // ---------- in numbers ----------

  /** The instructions, by number. */
  lemma InstructionNumbers(b: byte)
    ensures IsDeprecated(b) <==> b in {0x01, 0x02, 0x03}
    ensures IsModern(b) <==> b in {0x04, 0x05, 0x06, 0x07, 0x08, 0x09, 0x16, 0x20, 0x21, 0x22}
    ensures SplitAllowed(b) <==> b in {0x03, 0x06, 0x07, 0x08, 0x09, 0x21, 0x22}
    ensures WithPath(b) <==> b !in {0x16, 0x21, 0x22}
    ensures WithoutPayload(b) <==> b in {0x01, 0x04, 0x20}
  {
  }

  /** The code of an APDU that is no frame: one for the size, one for the class byte, one for
      the instruction. */
  lemma FrameCode(apdu: seq<byte>)
    requires ParseHeader(apdu).Err?
    ensures ParseHeader(apdu).code ==
              if |apdu| <= 1 then 0x6a83
              else if apdu[0] != 0xE0 then 0x6a81
              else if 0x01 <= apdu[1] <= 0x09 || apdu[1] in {0x16, 0x20, 0x21, 0x22} then 0x6a83
              else 0x6d00
  {
  }

  lemma PathBytesAt(path: seq<u32>, d: seq<byte>)
    requires |path| < 0x100 && PathBytes(path) <= d
    ensures |d| > 0 && d[0] == |path| && 1 + 4 * |path| <= |d| && PathWords(d, |path|) == path
  {
    forall i | 0 <= i < |path| ensures PathWord(d, i) == path[i] {
      WordsBytesAt(path, i);
      assert d[1 + 4 * i..1 + 4 * i + 4] == PathBytes(path)[1 + 4 * i..1 + 4 * i + 4]
          == WordsBytes(path)[4 * i..4 * i + 4];
      WordOfBytes(path[i], d, i);
    }
  }

  lemma WordBack(d: seq<byte>, i: nat)
    requires 1 + 4 * i + 4 <= |d|
    ensures WordBytes(PathWord(d, i)) == d[1 + 4 * i..1 + 4 * i + 4]
  {
    BytesOfWord(d[1 + 4 * i], d[2 + 4 * i], d[3 + 4 * i], d[4 + 4 * i]);
  }

  lemma BytesOfWord(a: byte, b: byte, c: byte, e: byte)
    ensures var w: u32 := a as int * 0x100_0000 + b as int * 0x1_0000 + c as int * 0x100 + e as int;
            w / 0x100_0000 == a && w / 0x1_0000 % 0x100 == b && w / 0x100 % 0x100 == c && w % 0x100 == e
  {
    var x: int := a as int * 0x100 + b;
    var y: int := x * 0x100 + c;
    var w: int := y * 0x100 + e;
    assert w / 0x100 == y && y / 0x100 == x && x / 0x100 == a;
    assert w / 0x1_0000 == w / 0x100 / 0x100 && w / 0x100_0000 == w / 0x1_0000 / 0x100;
  }

  lemma {:induction false} WordsBack(d: seq<byte>, n: nat)
    requires 1 + 4 * n <= |d|
    ensures WordsBytes(PathWords(d, n)) == d[1..1 + 4 * n]
  {
    if n > 0 {
      WordsBack(d, n - 1);
      WordBack(d, n - 1);
      assert PathWords(d, n)[..n - 1] == PathWords(d, n - 1) && PathWords(d, n)[n - 1] == PathWord(d, n - 1);
      assert d[1..1 + 4 * n] == d[1..1 + 4 * (n - 1)] + d[1 + 4 * (n - 1)..1 + 4 * (n - 1) + 4];
    }
  }

  /** A path is read exactly when the data starts with its length and its big-endian words,
      two to five of them, of which the first are 44' and 501'. */
  lemma {:induction false} PathIff(d: seq<byte>, path: seq<u32>)
    ensures ReadPath(Some(d)) == Ok(path)
       <==> 2 <= |path| <= 5 && path[0] == 0x8000_002c && path[1] == 0x8000_01f5 && PathBytes(path) <= d
  {
    if 2 <= |path| <= 5 && PathBytes(path) <= d {
      PathBytesAt(path, d);
    }
    if ReadPath(Some(d)) == Ok(path) {
      WordsBack(d, |path|);
      assert d[..1 + 4 * |path|] == [d[0]] + d[1..1 + 4 * |path|];
    }
  }

  /** The code of data that is no path. */
  lemma PathCode(data: Option<seq<byte>>)
    requires ReadPath(data).Err?
    ensures ReadPath(data).code ==
              if data.None? then 0x6802
              else if |data.value| == 0 then 0x6a83
              else if data.value[0] == 0 || data.value[0] > 5 then 0x6a80
              else if |data.value| < 1 + 4 * data.value[0] then 0x6a83
              else 0x6a84
  {
  }

  /** What an accepted APDU makes of the command's flags: p1 waives the confirmation when it
      is 0; p2 bit 0 continues a command that may be split, bit 1 announces more, and bit 3,
      looked at in the last APDU, says that the user gave a token account. */
  lemma HandledFlags(c: Command, apdu: seq<byte>)
    requires Handle(c, apdu).Ok?
    ensures |apdu| >= 5
    ensures var next, b, p1, p2 := Handle(c, apdu).value, apdu[1], apdu[2], apdu[3];
            && next.instruction == b && next.nonConfirm == (p1 == 0) && next.deprecatedHost == (b <= 0x03)
            && next.phase == (if b !in {0x01, 0x04, 0x20} && p2 / 2 % 2 == 1 then InProgress else Complete)
    ensures var next, b, p1, p2 := Handle(c, apdu).value, apdu[1], apdu[2], apdu[3];
            var continues := p2 % 2 == 1 && b in {0x03, 0x06, 0x07, 0x08, 0x09, 0x21, 0x22};
            && next.previewMode == (continues && c.previewMode)
            && next.ataAccount == (if b in {0x01, 0x04, 0x20} then false
                                   else if next.phase == Complete then p2 / 8 % 2 == 1
                                   else continues && c.ataAccount)
            && (continues ==> c.phase == InProgress && c.instruction == b && c.nonConfirm == (p1 == 0)
                              && c.deprecatedHost == (b <= 0x03) && next.path == c.path && c.payload <= next.payload)
  {
    var h := ParseHeader(apdu).value;
    InstructionNumbers(h.instruction);
    assert h.instruction == apdu[1] && h.p1 == apdu[2] && h.p2 == apdu[3] && h.deprecatedHost == (apdu[1] <= 0x03);
    if !WithoutPayload(h.instruction) {
      if IsFirst(h) {
        FirstFlags(h);
      } else {
        NextFlags(c, h);
      }
    }
  }

  lemma FirstFlags(h: Header)
    requires HandleFirst(h).Ok?
    ensures var c := HandleFirst(h).value;
            && c.phase == InProgress && c.instruction == h.instruction && c.nonConfirm == (h.p1 == 0)
            && c.deprecatedHost == h.deprecatedHost && !c.previewMode && !c.ataAccount
  {
  }

  lemma NextFlags(c: Command, h: Header)
    requires HandleExtension(c, h).Ok?
    ensures var d := HandleExtension(c, h).value;
            && d == c.(payload := d.payload) && c.payload <= d.payload && c.phase == InProgress
            && c.instruction == h.instruction && c.nonConfirm == (h.p1 == 0) && c.deprecatedHost == h.deprecatedHost
  {
  }

  // ---------- which chunks are accepted ----------

  /** A path as the program takes it: two to five words, of which the first are 44' and 501'. */
  ghost predicate SolanaPath(path: seq<u32>) {
    2 <= |path| <= 5 && path[0] == 0x8000_002c && path[1] == 0x8000_01f5
  }

  lemma {:induction false} PathThen(s: seq<byte>, path: seq<u32>, d: seq<byte>)
    ensures ReadPath(Some(s)) == Ok(path) && 1 + 4 * |path| <= |s| && d == s[1 + 4 * |path|..]
       <==> SolanaPath(path) && s == PathBytes(path) + d
  {
    PathIff(s, path);
    if SolanaPath(path) {
      if PathBytes(path) <= s {
        assert s == s[..1 + 4 * |path|] + s[1 + 4 * |path|..];
      }
      assert (PathBytes(path) + d)[1 + 4 * |path|..] == d;
    }
  }

  /** The count of paths where the host writes one. */
  ghost function PathCount(h: Header): seq<byte> { if h.deprecatedHost || h.instruction == 0x05 then [] else [1] }

  lemma {:induction false} TakePathIff(h: Header, path: seq<u32>, d: seq<byte>)
    ensures TakePath(h) == Ok((path, d))
       <==> SolanaPath(path) && h.data == Some(PathCount(h) + (PathBytes(path) + d))
  {
    if PathCount(h) == [] {
      PlainPathIff(h, path, d);
    } else {
      CountedPathIff(h, path, d);
    }
  }

  lemma {:induction false} PlainPathIff(h: Header, path: seq<u32>, d: seq<byte>)
    requires h.deprecatedHost || h.instruction == 0x05
    ensures TakePath(h) == Ok((path, d)) <==> SolanaPath(path) && h.data == Some([] + (PathBytes(path) + d))
  {
    if h.data.Some? {
      PathThen(h.data.value, path, d);
    }
    if SolanaPath(path) { assert [] + (PathBytes(path) + d) == PathBytes(path) + d; }
  }

  lemma {:induction false} CountedPathIff(h: Header, path: seq<u32>, d: seq<byte>)
    requires !h.deprecatedHost && h.instruction != 0x05
    ensures TakePath(h) == Ok((path, d)) <==> SolanaPath(path) && h.data == Some([1] + (PathBytes(path) + d))
  {
    if h.data.Some? && |h.data.value| > 0 {
      var data := h.data.value;
      assert data == [data[0]] + data[1..];
      PathThen(data[1..], path, d);
    }
    if SolanaPath(path) { assert ([1] + (PathBytes(path) + d))[1..] == PathBytes(path) + d; }
  }

  /** The length in front of the body of the deprecated signing instruction. */
  ghost function BodyLength(h: Header, body: seq<byte>): seq<byte>
    requires |body| < 0x1_0000
  {
    if h.instruction == 0x03 then [|body| / 0x100, |body| % 0x100] else []
  }

  lemma {:induction false} StripIff(h: Header, data: Option<seq<byte>>, body: seq<byte>)
    requires |body| < 0x1_0000
    ensures StripLength(h, data) == Ok(Some(body)) <==> data == Some(BodyLength(h, body) + body)
  {
    assert [] + body == body;
    if h.instruction == 0x03 {
      if data.Some? && |data.value| >= 2 {
        assert data.value == [data.value[0], data.value[1]] + data.value[2..];
      }
      assert ([|body| / 0x100, |body| % 0x100] + body)[2..] == body;
    }
  }

  /** The data of an opening chunk with this path and body: the body alone for an instruction
      without a path; else the count of paths, the path, and the body with its length. */
  ghost predicate OpensWith(h: Header, path: seq<u32>, body: seq<byte>)
    requires |body| < 0x1_0000
  {
    if h.instruction in {0x16, 0x21, 0x22} then path == [] && h.data == Some(body)
    else SolanaPath(path) && h.data == Some(PathCount(h) + (PathBytes(path) + (BodyLength(h, body) + body)))
  }

  /** The command an opening chunk leaves. */
  ghost function OpenedCommand(h: Header, path: seq<u32>, body: seq<byte>): Command {
    Command(InProgress, h.instruction, if h.instruction in {0x16, 0x21, 0x22} then 0 else 1, path, h.p1 == 0,
            false, h.deprecatedHost, false, body)
  }

  lemma {:induction false} AppendFirst(c: Command, h: Header, body: seq<byte>)
    requires c.payload == []
    ensures Append(c, h, Some(body)) == if |body| < 15360 then Ok(c.(payload := body)) else Err(0x6a83)
  {
    assert [] + body == body;
  }

  /** What an opening chunk leaves once its path and its body are known. */
  lemma {:induction false} FirstIsAppend(h: Header, path: seq<u32>, d: seq<byte>, body: seq<byte>)
    requires WithPath(h.instruction) && TakePath(h) == Ok((path, d)) && StripLength(h, Some(d)) == Ok(Some(body))
    ensures HandleFirst(h) == if |body| < 15360 then Ok(OpenedCommand(h, path, body)) else Err(0x6a83)
  {
    AppendFirst(Opened(h, InProgress).(numPaths := 1, path := path), h, body);
  }

  lemma {:induction false} FirstWithoutPathIs(h: Header, body: seq<byte>)
    requires !WithPath(h.instruction) && h.data == Some(body)
    ensures HandleFirst(h) == if |body| < 15360 then Ok(OpenedCommand(h, [], body)) else Err(0x6a83)
  {
    AppendFirst(Opened(h, InProgress), h, body);
  }

  lemma {:induction false} OpenedIs(h: Header, path: seq<u32>, body: seq<byte>)
    requires |body| < 15360 && OpensWith(h, path, body)
    ensures HandleFirst(h) == Ok(OpenedCommand(h, path, body))
  {
    InstructionNumbers(h.instruction);
    if WithPath(h.instruction) {
      var d := BodyLength(h, body) + body;
      TakePathIff(h, path, d);
      StripIff(h, Some(d), body);
      FirstIsAppend(h, path, d, body);
    } else {
      FirstWithoutPathIs(h, body);
    }
  }

  lemma {:induction false} OpenedParts(h: Header) returns (path: seq<u32>, body: seq<byte>)
    requires !WithoutPayload(h.instruction) && HandleFirst(h).Ok?
    ensures |body| < 15360 && OpensWith(h, path, body) && HandleFirst(h) == Ok(OpenedCommand(h, path, body))
  {
    InstructionNumbers(h.instruction);
    if WithPath(h.instruction) {
      var d;
      path, d := TakePath(h).value.0, TakePath(h).value.1;
      body := StripLength(h, Some(d)).value.value;
      FirstIsAppend(h, path, d, body);
      TakePathIff(h, path, d);
      StripIff(h, Some(d), body);
    } else {
      path, body := [], h.data.value;
      FirstWithoutPathIs(h, body);
    }
  }

  /** An opening chunk is accepted exactly when its data is a path and a body below 15360
      bytes, and then the command is just that. */
  lemma {:induction false} OpeningIff(h: Header, c: Command)
    requires !WithoutPayload(h.instruction)
    ensures HandleFirst(h) == Ok(c) <==>
              |c.payload| < 15360 && OpensWith(h, c.path, c.payload) && c == OpenedCommand(h, c.path, c.payload)
  {
    if |c.payload| < 15360 && OpensWith(h, c.path, c.payload) {
      OpenedIs(h, c.path, c.payload);
    }
    if HandleFirst(h) == Ok(c) {
      var path, body := OpenedParts(h);
    }
  }

  /** A continuing chunk is accepted exactly when it continues the command in progress, with
      the same instruction and flags, and the message stays below 15360 bytes; then its body
      is appended. */
  lemma {:induction false} ContinuationIff(c: Command, h: Header, body: seq<byte>)
    requires SplitAllowed(h.instruction) && |body| < 0x1_0000
    ensures HandleExtension(c, h) == Ok(c.(payload := c.payload + body)) && h.data == Some(BodyLength(h, body) + body)
       <==> && c.phase == InProgress && c.instruction == h.instruction && c.nonConfirm == (h.p1 == 0)
            && c.deprecatedHost == h.deprecatedHost && (h.instruction !in {0x21, 0x22} ==> c.numPaths == 1)
            && h.data == Some(BodyLength(h, body) + body) && |c.payload| + |body| < 15360
  {
    InstructionNumbers(h.instruction);
    StripIff(h, h.data, body);
  }

  /** The codes of chunks that are refused: one for a chunk that continues nothing, for a wrong
      count of paths and for a wrong number of words; one for sizes; one for another path. */
  lemma {:induction false} ChunkCode(c: Command, h: Header)
    requires HandleHeader(c, h).Err?
    ensures HandleHeader(c, h).code in {0x6a80, 0x6a83, 0x6a84, 0x6802}
    ensures !IsFirst(h) ==>
              HandleHeader(c, h).code ==
                if c.phase != InProgress || c.instruction != h.instruction || c.nonConfirm != (h.p1 == 0)
                   || c.deprecatedHost != h.deprecatedHost || (h.instruction !in {0x21, 0x22} && c.numPaths != 1)
                then 0x6a80 else 0x6a83
  {
    InstructionNumbers(h.instruction);
    if IsFirst(h) && WithPath(h.instruction) && TakePath(h).Err? {
      TakePathCode(h);
    }
  }

  lemma TakePathCode(h: Header)
    requires TakePath(h).Err?
    ensures TakePath(h).code in {0x6a80, 0x6a83, 0x6a84, 0x6802}
    ensures PathCount(h) != [] ==>
              TakePath(h).code ==
                if h.data.None? || |h.data.value| == 0 then 0x6a83
                else if h.data.value[0] != 1 || (|h.data.value| > 1 && !(1 <= h.data.value[1] <= 5)) then 0x6a80
                else if |h.data.value| < 2 || |h.data.value| < 2 + 4 * h.data.value[1] then 0x6a83
                else 0x6a84
  {
    if PathCount(h) != [] {
      if h.data.Some? && |h.data.value| > 0 && ReadPath(Some(h.data.value[1..])).Err? {
        PathCode(Some(h.data.value[1..]));
      }
    } else {
      PathCode(h.data);
    }
  }
}
