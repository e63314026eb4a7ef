/** The apdu_command_t object of src/apdu.c and src/utils.c, updated in place, against
    the value-level specification of module Apdu. */
module ApduCommand {
  import opened Bytes
  import opened Apdu

  /** read_derivation_path: fills the path word by word, then checks the policy. */
  method ReadDerivationPath(data: Option<seq<byte>>) returns (rc: int, path: seq<u32>)
    ensures ReadPath(data) == if rc == 0 then Ok(path) else Err(rc)
  {
    path := [];
    if data.None? {
      return SDK_INVALID_PARAMETER, path;
    }
    var d := data.value;
    if |d| == 0 {
      return INVALID_MESSAGE_SIZE, path;
    }
    var len: int := d[0];
    if len < 1 || len > MAX_BIP32_PATH_LENGTH {
      return INVALID_MESSAGE, path;
    }
    if 1 + 4 * len > |d| {
      return INVALID_MESSAGE_SIZE, path;
    }
    for i := 0 to len
      invariant path == PathWords(d, i)
    {
      path := path + [PathWord(d, i)];
    }
    if len < 2 || path[0] != BIP32_HARDENED + 44 || path[1] != BIP32_HARDENED + 501 {
      return INVALID_DERIVATION_PATH, path;
    }
    rc := 0;
  }

  class ApduCommand {
    var phase: Phase
    var instruction: byte
    var numPaths: byte
    var path: seq<u32>
    var nonConfirm: bool
    var previewMode: bool
    var deprecatedHost: bool
    var ataAccount: bool
    const message: array<byte>
    var messageLength: nat

    ghost predicate Valid()
      reads this
    {
      message.Length == MAX_MESSAGE_LENGTH && messageLength < MAX_MESSAGE_LENGTH
    }

    /** The command as a value. */
    ghost function View(): Command
      reads this, message
      requires Valid()
    {
      Command(phase, instruction, numPaths, path, nonConfirm, previewMode, deprecatedHost, ataAccount,
              message[..messageLength])
    }

    constructor ()
      ensures Valid() && View() == BLANK && fresh(message)
    {
      phase, instruction, numPaths, path := Uninitialized, 0, 0, [];
      nonConfirm, previewMode, deprecatedHost, ataAccount := false, false, false, false;
      message := new byte[MAX_MESSAGE_LENGTH](_ => 0);
      messageLength := 0;
    }

    /** explicit_bzero of the whole command. */
    method Clear()
      requires Valid()
      modifies this, message
      ensures Valid() && View() == BLANK && messageLength == 0
      ensures forall i :: 0 <= i < message.Length ==> message[i] == 0
    {
      phase, instruction, numPaths, path := Uninitialized, 0, 0, [];
      nonConfirm, previewMode, deprecatedHost, ataAccount := false, false, false, false;
      forall i | 0 <= i < message.Length { message[i] := 0; }
      messageLength := 0;
    }

    /** Clears the command and enters the fields every APDU sets. */
    method Open(h: Header, first: Phase)
      requires Valid()
      modifies this, message
      ensures Valid() && View() == Opened(h, first) && messageLength == 0
      ensures forall i :: 0 <= i < message.Length ==> message[i] == 0
    {
      Clear();
      phase := first;
      instruction := h.instruction;
      nonConfirm := h.p1 == P1_NON_CONFIRM;
      deprecatedHost := h.deprecatedHost;
    }

    /** The checks of an extending chunk. */
    method CheckExtension(h: Header) returns (rc: int)
      requires Valid()
      ensures rc == if Extends(View(), h) then 0 else INVALID_MESSAGE
    {
      if phase != InProgress {
        return INVALID_MESSAGE;
      }
      if instruction != h.instruction {
        return INVALID_MESSAGE;
      }
      if nonConfirm != (h.p1 == P1_NON_CONFIRM) {
        return INVALID_MESSAGE;
      }
      if deprecatedHost != h.deprecatedHost {
        return INVALID_MESSAGE;
      }
      rc := 0;
    }

    /** Reads the path of a first chunk; data is what follows it. */
    method ReadPathOfFirst(h: Header) returns (rc: int, data: Option<seq<byte>>)
      requires Valid()
      modifies this`numPaths, this`path
      ensures Valid()
      ensures TakePath(h).Ok? ==> rc == 0 && data == Some(TakePath(h).value.1)
                                  && View() == old(View()).(numPaths := 1, path := TakePath(h).value.0)
      ensures TakePath(h).Err? ==> rc == TakePath(h).code && rc != 0
    {
      data := h.data;
      if !h.deprecatedHost && h.instruction != GET_PUBKEY {
        if h.data.None? || |h.data.value| == 0 {
          return INVALID_MESSAGE_SIZE, None;
        }
        numPaths := h.data.value[0];
        data := Some(h.data.value[1..]);
        if numPaths != 1 {
          return INVALID_MESSAGE, None;
        }
      } else {
        numPaths := 1;
      }
      var words;
      rc, words := ReadDerivationPath(data);
      if rc != 0 {
        return rc, None;
      }
      path := words;
      data := Some(data.value[1 + 4 * |path|..]);
    }

    /** Appends the data of a chunk, keeping one place for the terminator. */
    method AppendData(h: Header, data: Option<seq<byte>>) returns (rc: int)
      requires Valid()
      modifies this`messageLength, message
      ensures Valid()
      ensures Append(old(View()), h, data).Ok? ==> rc == 0 && View() == Append(old(View()), h, data).value
      ensures Append(old(View()), h, data).Err? ==> rc == Append(old(View()), h, data).code && rc != 0
    {
      rc := 0;
      if data.Some? {
        if messageLength + |data.value| >= MAX_MESSAGE_LENGTH {
          return INVALID_MESSAGE_SIZE;
        }
        forall i | 0 <= i < |data.value| { message[messageLength + i] := data.value[i]; }
        messageLength := messageLength + |data.value|;
        assert message[..messageLength] == old(message[..messageLength]) + data.value;
      } else if !WithoutPayload(h.instruction) && !OnlyPath(h.instruction) {
        return INVALID_MESSAGE_SIZE;
      }
    }

    /** The last step: unless more is announced the command is complete and its payload
        is terminated by a NUL, which always has room. */
    method FinishChunk(h: Header)
      requires Valid()
      modifies this`phase, this`ataAccount, message
      ensures Valid() && View() == Finish(old(View()), h)
      ensures !Bit(h.p2, P2_MORE) ==> message[messageLength] == 0
    {
      if !Bit(h.p2, P2_MORE) {
        phase := Complete;
        message[messageLength] := 0;
        ataAccount := Bit(h.p2, P2_IS_ATA_OR_TOKEN_ACCOUNT);
      }
    }

    /** Resets or checks the command, then reads the path where one is due. */
    method BeginChunk(h: Header) returns (rc: int, data: Option<seq<byte>>)
      requires Valid()
      modifies this, message
      ensures Valid()
      ensures IsFirst(h) && rc == 0 && WithPath(h.instruction) ==>
                TakePath(h).Ok? && data == Some(TakePath(h).value.1)
                && View() == Opened(h, InProgress).(numPaths := 1, path := TakePath(h).value.0)
      ensures IsFirst(h) && rc == 0 && !WithPath(h.instruction) ==> data == h.data && View() == Opened(h, InProgress)
      ensures IsFirst(h) && rc != 0 ==> WithPath(h.instruction) && TakePath(h) == Err(rc)
      ensures !IsFirst(h) && rc == 0 ==>
                data == h.data && Extends(old(View()), h) && View() == old(View())
                && (WithPath(h.instruction) ==> old(numPaths) == 1)
      ensures !IsFirst(h) && rc != 0 ==> rc == INVALID_MESSAGE
      ensures !IsFirst(h) && rc != 0 ==> !Extends(old(View()), h) || (WithPath(h.instruction) && old(numPaths) != 1)
    {
      data := h.data;
      var firstDataChunk := !Bit(h.p2, P2_EXTEND);
      if !firstDataChunk && !SplitAllowed(h.instruction) {
        firstDataChunk := true;
      }
      if firstDataChunk {
        Open(h, InProgress);
        rc := 0;
      } else {
        rc := CheckExtension(h);
        if rc != 0 { return; }
      }
      if WithPath(h.instruction) {
        if firstDataChunk {
          rc, data := ReadPathOfFirst(h);
        } else if numPaths != 1 {
          rc := INVALID_MESSAGE;
        }
      }
    }

    /** apdu_handle_message. The state after an error is unspecified: the caller clears
        the command. */
    method HandleMessage(apdu: seq<byte>) returns (rc: int)
      requires Valid()
      modifies this, message
      ensures Valid()
      ensures Handle(old(View()), apdu).Ok? ==> rc == 0 && View() == Handle(old(View()), apdu).value
      ensures Handle(old(View()), apdu).Err? ==> rc == Handle(old(View()), apdu).code && rc != 0
      ensures rc == 0 && phase == Complete ==> message[messageLength] == 0
    {
      var parsed := ParseHeader(apdu);
      if parsed.Err? {
        return parsed.code;
      }
      var h := parsed.value;
      if WithoutPayload(h.instruction) {
        Open(h, Complete);
        return 0;
      }
      var data;
      rc, data := BeginChunk(h);
      if rc != 0 { return; }
      if h.instruction == DEPRECATED_SIGN_MESSAGE {
        if data.None? || |data.value| < 2 {
          return INVALID_MESSAGE_SIZE;
        }
        var dataLen := data.value[0] as int * 0x100 + data.value[1];
        if |data.value| - 2 != dataLen {
          return INVALID_MESSAGE_SIZE;
        }
        data := Some(data.value[2..]);
      }
      rc := AppendData(h, data);
      if rc != 0 { return; }
      FinishChunk(h);
    }
  }
}
