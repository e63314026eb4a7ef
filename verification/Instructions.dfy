/** libsol/instruction.c: the check of an instruction's indices, and the keys they name. */
module Instructions {
  import opened Bytes
  import opened Wire

  /** instruction_validate as a predicate. */
  ghost predicate IndicesInRange(i: Instruction, h: MessageHeader) {
    && |h.prefix.pubkeys| == h.prefix.counts.pubkeysLength * PUBKEY_SIZE
    && i.programIdIndex < h.prefix.counts.pubkeysLength
    && forall j :: 0 <= j < |i.accounts| ==> i.accounts[j] < h.prefix.counts.pubkeysLength
  }

  method InstructionValidate(i: Instruction, h: MessageHeader) returns (rc: int)
    requires |h.prefix.pubkeys| == h.prefix.counts.pubkeysLength * PUBKEY_SIZE
    ensures rc == 0 <==> IndicesInRange(i, h)
  {
    if i.programIdIndex >= h.prefix.counts.pubkeysLength {
      return 1;
    }
    for j := 0 to |i.accounts|
      invariant forall k :: 0 <= k < j ==> i.accounts[k] < h.prefix.counts.pubkeysLength
    {
      if i.accounts[j] >= h.prefix.counts.pubkeysLength {
        return 1;
      }
    }
    return 0;
  }

  function ProgramOf(i: Instruction, h: MessageHeader): seq<byte>
    requires IndicesInRange(i, h)
  {
    KeyAt(h.prefix.pubkeys, i.programIdIndex)
  }

  /** get_account_from_ins */
  function AccountOf(i: Instruction, h: MessageHeader, slot: nat): Option<seq<byte>>
    requires IndicesInRange(i, h)
  {
    if slot >= |i.accounts| then None else Some(KeyAt(h.prefix.pubkeys, i.accounts[slot]))
  }
}
