/** libsol/agenc_instruction.c: the parsers on the cursor, the account checks, and
    parse_agenc_instructions. */
module Agenc {
  import opened Bytes
  import opened Wire
  import opened AgencData
  import opened Artifact
  import P = Parser

  /** Both program ids the firmware knows; they are the same key. */
  const PROGRAM_ID: seq<byte> :=
    [242, 79, 6, 99, 64, 38, 134, 189, 153, 254, 99, 205, 191, 250, 117, 81,
     77, 182, 210, 40, 135, 198, 34, 170, 239, 78, 246, 219, 237, 68, 245, 232]

  datatype AgencInfo = AgencInfo(
    fields: Fields, accounts: seq<seq<byte>>, artifactHash: Option<seq<byte>>, workers: nat)

  // ---------- accounts ----------

  ghost predicate ValidKeys(h: MessageHeader) {
    |h.prefix.pubkeys| == h.prefix.counts.pubkeysLength * PUBKEY_SIZE
  }

  /** account_at */
  function AccountAt(i: Instruction, h: MessageHeader, slot: nat): Option<seq<byte>>
    requires ValidKeys(h)
  {
    if slot >= |i.accounts| then None
    else if i.accounts[slot] >= h.prefix.counts.pubkeysLength then None
    else Some(KeyAt(h.prefix.pubkeys, i.accounts[slot]))
  }

  function AccountsAt(i: Instruction, h: MessageHeader, slots: seq<nat>): Option<seq<seq<byte>>>
    requires ValidKeys(h)
    decreases |slots|
  {
    if |slots| == 0 then Some([])
    else
      var first :- AccountAt(i, h, slots[0]);
      var others :- AccountsAt(i, h, slots[1..]);
      Some([first] + others)
  }

  /** The slots of each kind that are read, in order. */
  function Slots(k: Kind): seq<nat> {
    match k
    case Register => [0, 1, 2, 3]
    case Create => [0, 1, 2, 3, 4, 5, 6, 7]
    case Configure => [0, 1, 2, 3, 4, 5, 6]
    case SetJobSpec => [0, 1, 2, 3, 4, 5, 6, 7, 8]
    case Claim => [0, 1, 2, 3, 4, 5, 6, 7, 8, 9]
    case Submit => [0, 1, 2, 3, 4, 5, 6, 7]
    case Accept => [0, 1, 2, 3, 4, 5, 6, 7, 8, 9, 10, 11, 12, 13, 14, 20]
    case Reject => [0, 1, 2, 3, 4, 5, 6, 7, 8, 9, 10]
    case Cancel => [0, 1, 2, 3, 4]
    case Expire => [0, 1, 2, 3, 4, 5, 6, 7, 8, 9, 10, 11, 12, 13]
  }

  /** The slot of the system program. */
  function SystemSlot(k: Kind): nat {
    match k
    case Register => 3
    case Create => 7
    case Configure => 6
    case SetJobSpec => 8
    case Claim => 9
    case Submit => 7
    case Accept => 20
    case Reject => 9
    case Cancel => 4
    case Expire => 13
  }

  function AccountCount(k: Kind): nat {
    match k
    case Register => 4
    case Create => 13
    case Configure => 7
    case SetJobSpec => 9
    case Claim => 10
    case Submit => 8
    case Accept => 21
    case Reject => 11
    case Cancel => 15
    case Expire => 14
  }

  /** A cancelled task may name the three accounts of one worker. */
  predicate CountAccepted(k: Kind, n: nat) {
    if k.Cancel? then n >= 15 && n <= 15 + 3 && (n - 15) % 3 == 0
    else n == AccountCount(k)
  }

  /** What each parser checks about the accounts. */
  function Accounts(k: Kind, i: Instruction, h: MessageHeader): Option<seq<seq<byte>>>
    requires ValidKeys(h)
  {
    if !CountAccepted(k, |i.accounts|) then None
    else
      var keys :- AccountsAt(i, h, Slots(k));
      if AccountAt(i, h, SystemSlot(k)) == Some(Zeros(PUBKEY_SIZE)) then Some(keys) else None
  }

  lemma {:induction false} AccountsAtIff(i: Instruction, h: MessageHeader, slots: seq<nat>)
    requires ValidKeys(h)
    ensures AccountsAt(i, h, slots).Some? <==> forall j :: 0 <= j < |slots| ==> AccountAt(i, h, slots[j]).Some?
    ensures AccountsAt(i, h, slots).Some? ==>
              |AccountsAt(i, h, slots).value| == |slots|
              && forall j :: 0 <= j < |slots| ==> AccountAt(i, h, slots[j]) == Some(AccountsAt(i, h, slots).value[j])
    decreases |slots|
  {
    if |slots| > 0 {
      AccountsAtIff(i, h, slots[1..]);
      assert slots == [slots[0]] + slots[1..];
      assert forall j :: 0 <= j < |slots| - 1 ==> slots[1..][j] == slots[j + 1];
      assert forall j :: 0 < j < |slots| ==> slots[j] == slots[1..][j - 1];
    }
  }

  /** The accounts a kind takes, how many of them are reported, and the slot of the system
      program. */
  datatype Layout = Layout(accounts: nat, reported: nat, system: nat)

  ghost function LayoutOf(k: Kind): Layout {
    match k
    case Register => Layout(4, 4, 3)
    case Create => Layout(13, 8, 7)
    case Configure => Layout(7, 7, 6)
    case SetJobSpec => Layout(9, 9, 8)
    case Claim => Layout(10, 10, 9)
    case Submit => Layout(8, 8, 7)
    case Accept => Layout(21, 16, 20)
    case Reject => Layout(11, 11, 9)
    case Cancel => Layout(15, 5, 4)
    case Expire => Layout(14, 14, 13)
  }

  /** The account in a slot names this key: its index is below the number of keys, and the
      key is the 32 bytes there. */
  ghost predicate Names(i: Instruction, h: MessageHeader, slot: int, key: seq<byte>) {
    && 0 <= slot < |i.accounts| && i.accounts[slot] < h.prefix.counts.pubkeysLength
    && var o: int := 32 * i.accounts[slot] as int;
       o + 32 <= |h.prefix.pubkeys| && key == h.prefix.pubkeys[o..o + 32]
  }

  lemma NamesIff(i: Instruction, h: MessageHeader, slot: nat, key: seq<byte>)
    requires ValidKeys(h)
    ensures AccountAt(i, h, slot) == Some(key) <==> Names(i, h, slot, key)
  {
    if slot < |i.accounts| && i.accounts[slot] < h.prefix.counts.pubkeysLength {
      var j: int := i.accounts[slot];
      assert 32 * j + 32 <= 32 * h.prefix.counts.pubkeysLength;
    }
  }

  lemma SlotsAre(k: Kind)
    ensures |Slots(k)| == LayoutOf(k).reported && SystemSlot(k) == LayoutOf(k).system
    ensures forall j :: 0 <= j < |Slots(k)| ==> Slots(k)[j] == if j == 15 then 20 else j
  {
  }

  /** The accounts are accepted as keys exactly when there are as many as the kind needs, a
      cancelled task with three more for a worker or not; the j-th key is named by the j-th
      account, the last of an accepted result by account 20; and the system program, 32
      zero bytes, is in its slot. */
  lemma {:induction false} AccountsIff(k: Kind, i: Instruction, h: MessageHeader, keys: seq<seq<byte>>)
    requires ValidKeys(h)
    ensures Accounts(k, i, h) == Some(keys)
       <==> (|i.accounts| == LayoutOf(k).accounts || (k.Cancel? && |i.accounts| == 18))
            && |keys| == LayoutOf(k).reported
            && (forall j :: 0 <= j < |keys| ==> Names(i, h, if j == 15 then 20 else j, keys[j]))
            && Names(i, h, LayoutOf(k).system, seq(32, _ => 0))
  {
    var slots := Slots(k);
    SlotsAre(k);
    AccountsAtIff(i, h, slots);
    assert Zeros(PUBKEY_SIZE) == seq(32, _ => 0);
    NamesIff(i, h, SystemSlot(k), Zeros(PUBKEY_SIZE));
    forall j | 0 <= j < |slots| && j < |keys|
      ensures AccountAt(i, h, slots[j]) == Some(keys[j]) <==> Names(i, h, if j == 15 then 20 else j, keys[j])
    {
      NamesIff(i, h, slots[j], keys[j]);
    }
    if |keys| == |slots| && forall j :: 0 <= j < |keys| ==> AccountAt(i, h, slots[j]) == Some(keys[j]) {
      assert AccountsAt(i, h, slots).value == keys;
    }
  }

  // ---------- the data ----------

  method ParseI64(p: P.Parser) returns (rc: int, value: i64)
    requires p.Valid()
    modifies p`at
    ensures p.Valid() && P.Reports(ReadI64(old(p.Rest())), rc, value, p.Rest())
  {
    var n;
    rc, n := p.ParseU64();
    value := Signed(n);
  }

  method ParseText(p: P.Parser) returns (rc: int, value: seq<byte>)
    requires p.Valid()
    modifies p`at
    ensures p.Valid() && P.Reports(ReadText(old(p.Rest())), rc, value, p.Rest())
  {
    value := [];
    var n, ptr;
    rc, n := p.ParseU32();
    if rc != 0 { return; }
    rc, value, ptr := p.ParseFixed(n);
  }

  method ParseOptionalFixed(p: P.Parser, n: nat) returns (rc: int, value: Option<seq<byte>>)
    requires p.Valid()
    modifies p`at
    ensures p.Valid() && P.Reports(ReadOptionalFixed(old(p.Rest()), n), rc, value, p.Rest())
  {
    value := None;
    var some;
    rc, some := p.ParseOption();
    if rc != 0 || !some { return; }
    var v, ptr;
    rc, v, ptr := p.ParseFixed(n);
    if rc != 0 { return; }
    value := Some(v);
  }

  method ParseOptionalText(p: P.Parser) returns (rc: int, value: Option<seq<byte>>)
    requires p.Valid()
    modifies p`at
    ensures p.Valid() && P.Reports(ReadOptionalText(old(p.Rest())), rc, value, p.Rest())
  {
    value := None;
    var some;
    rc, some := p.ParseOption();
    if rc != 0 || !some { return; }
    var v;
    rc, v := ParseText(p);
    if rc != 0 { return; }
    value := Some(v);
  }

  /** The 64-byte description and the loop over its tail. */
  method ParseDescription(p: P.Parser) returns (rc: int, commitment: seq<byte>)
    requires p.Valid()
    modifies p`at
    ensures p.Valid() && P.Reports(ReadDescription(old(p.Rest())), rc, commitment, p.Rest())
  {
    commitment := [];
    var d, ptr;
    rc, d, ptr := p.ParseFixed(DESCRIPTION_SIZE);
    if rc != 0 { return; }
    for i := HASH_SIZE to DESCRIPTION_SIZE
      invariant forall j :: HASH_SIZE <= j < i ==> d[j] == 0
    {
      if d[i] != 0 {
        assert d[HASH_SIZE..][i - HASH_SIZE] != Zeros(DESCRIPTION_SIZE - HASH_SIZE)[i - HASH_SIZE];
        rc := 1;
        return;
      }
    }
    assert d[HASH_SIZE..] == Zeros(DESCRIPTION_SIZE - HASH_SIZE);
    commitment := d[..HASH_SIZE];
  }

  method ParseRegisterAgent(p: P.Parser) returns (rc: int, f: Fields)
    requires p.Valid()
    modifies p`at
    ensures p.Valid() && P.Reports(ReadRegisterAgent(old(p.Rest())), rc, f, p.Rest())
  {
    f := ClaimTaskWithJobSpec;
    var id, ptr, capabilities, endpoint, uri, stake;
    rc, id, ptr := p.ParseFixed(HASH_SIZE);
    if rc != 0 { return; }
    rc, capabilities := p.ParseU64();
    if rc != 0 { return; }
    rc, endpoint := ParseText(p);
    if rc != 0 { return; }
    rc, uri := ParseOptionalText(p);
    if rc != 0 { return; }
    rc, stake := p.ParseU64();
    if rc != 0 { return; }
    f := RegisterAgent(id, capabilities, endpoint, uri, stake);
  }

  method ParseCreateHead(p: P.Parser) returns (rc: int, head: CreateHead)
    requires p.Valid()
    modifies p`at
    ensures p.Valid() && P.Reports(ReadCreateHead(old(p.Rest())), rc, head, p.Rest())
  {
    head := CreateHead([], 0, [], 0, 0);
    var id, ptr, capabilities, commitment, reward, workers;
    rc, id, ptr := p.ParseFixed(HASH_SIZE);
    if rc != 0 { return; }
    rc, capabilities := p.ParseU64();
    if rc != 0 { return; }
    rc, commitment := ParseDescription(p);
    if rc != 0 { return; }
    rc, reward := p.ParseU64();
    if rc != 0 { return; }
    rc, workers := p.ParseU8();
    if rc != 0 { return; }
    head := CreateHead(id, capabilities, commitment, reward, workers);
  }

  method ParseCreateTail(p: P.Parser) returns (rc: int, tail: CreateTail)
    requires p.Valid()
    modifies p`at
    ensures p.Valid() && P.Reports(ReadCreateTail(old(p.Rest())), rc, tail, p.Rest())
  {
    tail := CreateTail(0, 0, None, 0, None);
    var deadline, taskType, constraint, reputation, mint;
    rc, deadline := ParseI64(p);
    if rc != 0 { return; }
    rc, taskType := p.ParseU8();
    if rc != 0 { return; }
    rc, constraint := ParseOptionalFixed(p, HASH_SIZE);
    if rc != 0 { return; }
    rc, reputation := p.ParseU16();
    if rc != 0 { return; }
    rc, mint := ParseOptionalFixed(p, PUBKEY_SIZE);
    if rc != 0 { return; }
    tail := CreateTail(deadline, taskType, constraint, reputation, mint);
  }

  method ParseCreateTask(p: P.Parser) returns (rc: int, f: Fields)
    requires p.Valid()
    modifies p`at
    ensures p.Valid() && P.Reports(ReadCreateTask(old(p.Rest())), rc, f, p.Rest())
  {
    f := ClaimTaskWithJobSpec;
    var head, tail;
    rc, head := ParseCreateHead(p);
    if rc != 0 { return; }
    rc, tail := ParseCreateTail(p);
    if rc != 0 { return; }
    f := CreateTask(head, tail);
  }

  method ParseConfigure(p: P.Parser) returns (rc: int, f: Fields)
    requires p.Valid()
    modifies p`at
    ensures p.Valid() && P.Reports(ReadConfigure(old(p.Rest())), rc, f, p.Rest())
  {
    f := ClaimTaskWithJobSpec;
    var mode, window, quorum, attestor;
    rc, mode := p.ParseU8();
    if rc != 0 { return; }
    rc, window := ParseI64(p);
    if rc != 0 { return; }
    rc, quorum := p.ParseU8();
    if rc != 0 { return; }
    rc, attestor := ParseOptionalFixed(p, PUBKEY_SIZE);
    if rc != 0 { return; }
    f := ConfigureTaskValidation(mode, window, quorum, attestor);
  }

  method ParseSetJobSpec(p: P.Parser) returns (rc: int, f: Fields)
    requires p.Valid()
    modifies p`at
    ensures p.Valid() && P.Reports(ReadSetJobSpec(old(p.Rest())), rc, f, p.Rest())
  {
    f := ClaimTaskWithJobSpec;
    var hash, ptr, uri;
    rc, hash, ptr := p.ParseFixed(HASH_SIZE);
    if rc != 0 { return; }
    rc, uri := ParseText(p);
    if rc != 0 { return; }
    f := SetTaskJobSpec(hash, uri);
  }

  method ParseSubmit(p: P.Parser) returns (rc: int, f: Fields)
    requires p.Valid()
    modifies p`at
    ensures p.Valid() && P.Reports(ReadSubmit(old(p.Rest())), rc, f, p.Rest())
  {
    f := ClaimTaskWithJobSpec;
    var hash, ptr, result;
    rc, hash, ptr := p.ParseFixed(HASH_SIZE);
    if rc != 0 { return; }
    rc, result := ParseOptionalFixed(p, RESULT_DATA_SIZE);
    if rc != 0 { return; }
    f := SubmitTaskResult(hash, result);
  }

  method ParseReject(p: P.Parser) returns (rc: int, f: Fields)
    requires p.Valid()
    modifies p`at
    ensures p.Valid() && P.Reports(ReadReject(old(p.Rest())), rc, f, p.Rest())
  {
    f := ClaimTaskWithJobSpec;
    var hash, ptr;
    rc, hash, ptr := p.ParseFixed(HASH_SIZE);
    if rc != 0 { return; }
    f := RejectTaskResult(hash);
  }

  method ParseFields(k: Kind, p: P.Parser) returns (rc: int, f: Fields)
    requires p.Valid()
    modifies p`at
    ensures p.Valid() && P.Reports(ReadFields(k, old(p.Rest())), rc, f, p.Rest())
  {
    match k
    case Register => rc, f := ParseRegisterAgent(p);
    case Create => rc, f := ParseCreateTask(p);
    case Configure => rc, f := ParseConfigure(p);
    case SetJobSpec => rc, f := ParseSetJobSpec(p);
    case Claim => rc, f := 0, ClaimTaskWithJobSpec;
    case Submit => rc, f := ParseSubmit(p);
    case Accept => rc, f := 0, AcceptTaskResult;
    case Reject => rc, f := ParseReject(p);
    case Cancel => rc, f := 0, CancelTask;
    case Expire => rc, f := 0, ExpireClaim;
  }

  method ParseData(data: seq<byte>) returns (rc: int, f: Fields)
    ensures rc == 0 <==> ReadAgencData(data).Some?
    ensures rc == 0 ==> ReadAgencData(data) == Some(f)
  {
    f := ClaimTaskWithJobSpec;
    var p := new P.Parser(data);
    var d, ptr;
    rc, d, ptr := p.ParseFixed(DISCRIMINATOR_SIZE);
    if rc != 0 { return; }
    var k := KindOf(d);
    if k.None? {
      rc := 1;
      return;
    }
    rc, f := ParseFields(k.value, p);
    if rc != 0 { return; }
    var empty := p.IsEmpty();
    if !empty { rc := 1; }
  }

  // ---------- the instruction ----------

  /** The artifact hash shown for a result: that of the only artifact text the result
      starts with, none if there is none. */
  ghost predicate ArtifactOf(result: Option<seq<byte>>, shown: Option<seq<byte>>) {
    && (shown.Some? ==> result.Some? && |shown.value| == HASH_SIZE && Starts(result.value, ArtifactText(shown.value)))
    && (shown.None? && result.Some? ==> forall h :: |h| == HASH_SIZE ==> !Starts(result.value, ArtifactText(h)))
  }

  ghost predicate Starts(s: seq<byte>, t: seq<byte>) { |t| <= |s| && s[..|t|] == t }

  ghost function ResultOf(f: Fields): Option<seq<byte>> { if f.SubmitTaskResult? then f.resultData else None }

  /** The artifact hash shown. */
  ghost function ArtifactHash(result: Option<seq<byte>>): Option<seq<byte>> {
    if exists h :: ArtifactOf(result, Some(h)) then
      var h :| ArtifactOf(result, Some(h));
      Some(h)
    else None
  }

  /** There is one hash at most. */
  lemma ArtifactUnique(result: Option<seq<byte>>, shown: Option<seq<byte>>)
    requires ArtifactOf(result, shown)
    ensures shown == ArtifactHash(result)
  {
    if shown.Some? {
      var h := ArtifactHash(result).value;
      ArtifactTextLength(h);
      ArtifactTextLength(shown.value);
      assert ArtifactText(h) == ArtifactText(shown.value);
      SameArtifact(h, shown.value);
    }
  }

  lemma SameArtifact(g: seq<byte>, h: seq<byte>)
    requires |g| == HASH_SIZE == |h| && ArtifactText(g) == ArtifactText(h)
    ensures g == h
  {
    EncodeLength(g);
    EncodeLength(h);
    assert Encode(g) == ArtifactText(g)[PREFIX_SIZE..PREFIX_SIZE + B64_SIZE];
    assert Encode(h) == ArtifactText(h)[PREFIX_SIZE..PREFIX_SIZE + B64_SIZE];
    EncodeInjective(g, h);
  }

  /** The workers of a cancelled task with n accounts. */
  function Workers(f: Fields, n: nat): nat { if f.CancelTask? && n >= 15 then (n - 15) / 3 else 0 }

  /** What is reported of an instruction: its fields, accounts, artifact and workers. */
  ghost function InfoOf(i: Instruction, h: MessageHeader): Option<AgencInfo>
    requires ValidKeys(h) && i.programIdIndex < h.prefix.counts.pubkeysLength
  {
    if KeyAt(h.prefix.pubkeys, i.programIdIndex) != PROGRAM_ID then None
    else
      var f :- ReadAgencData(i.data);
      var keys :- Accounts(KindOfFields(f), i, h);
      Some(AgencInfo(f, keys, ArtifactHash(ResultOf(f)), Workers(f, |i.accounts|)))
  }

  method ShownArtifact(f: Fields) returns (shown: Option<seq<byte>>)
    requires ValidFields(f)
    ensures ArtifactOf(ResultOf(f), shown)
  {
    shown := None;
    if f.SubmitTaskResult? && f.resultData.Some? {
      var output := new byte[HASH_SIZE];
      var ok := DecodeArtifactResultHash(f.resultData.value, output);
      forall h | |h| == HASH_SIZE ensures |ArtifactText(h)| == PREFIX_SIZE + B64_SIZE + 1 {
        ArtifactTextLength(h);
      }
      if ok { shown := Some(output[..]); }
    }
  }

  /** An instruction is reported exactly when the key of its program is AgenC's, its data is
      the serialized form of well-formed fields, and its accounts name the keys reported. */
  lemma {:induction false} AgencIff(i: Instruction, h: MessageHeader, info: AgencInfo)
    requires ValidKeys(h) && i.programIdIndex < h.prefix.counts.pubkeysLength
    ensures InfoOf(i, h) == Some(info)
       <==> var k, o := KindOfFields(info.fields), 32 * i.programIdIndex as int;
            && o + 32 <= |h.prefix.pubkeys| && h.prefix.pubkeys[o..o + 32] == PROGRAM_ID
            && ValidFields(info.fields) && i.data == AgencBytes(info.fields)
            && (|i.accounts| == LayoutOf(k).accounts || (k.Cancel? && |i.accounts| == 18))
            && |info.accounts| == LayoutOf(k).reported
            && (forall j :: 0 <= j < |info.accounts| ==> Names(i, h, if j == 15 then 20 else j, info.accounts[j]))
            && Names(i, h, LayoutOf(k).system, seq(32, _ => 0))
            && info.artifactHash == ArtifactHash(if info.fields.SubmitTaskResult? then info.fields.resultData else None)
            && info.workers == if |i.accounts| == 18 && k.Cancel? then 1 else 0
  {
    AgencDataIff(i.data, info.fields);
    AccountsIff(KindOfFields(info.fields), i, h, info.accounts);
    KeyInBounds(h, i.programIdIndex);
    InfoParts(i, h, info);
    if Accounts(KindOfFields(info.fields), i, h) == Some(info.accounts) {
      WorkersAre(info.fields, |i.accounts|);
    }
  }

  lemma {:induction false} InfoParts(i: Instruction, h: MessageHeader, info: AgencInfo)
    requires ValidKeys(h) && i.programIdIndex < h.prefix.counts.pubkeysLength
    ensures InfoOf(i, h) == Some(info)
       <==> && KeyAt(h.prefix.pubkeys, i.programIdIndex) == PROGRAM_ID
            && ReadAgencData(i.data) == Some(info.fields)
            && Accounts(KindOfFields(info.fields), i, h) == Some(info.accounts)
            && info.artifactHash == ArtifactHash(ResultOf(info.fields))
            && info.workers == Workers(info.fields, |i.accounts|)
  {
  }

  lemma WorkersAre(f: Fields, n: nat)
    requires n == LayoutOf(KindOfFields(f)).accounts || (KindOfFields(f).Cancel? && n == 18)
    ensures Workers(f, n) == if n == 18 && KindOfFields(f).Cancel? then 1 else 0
  {
  }

  lemma KeyInBounds(h: MessageHeader, j: byte)
    requires ValidKeys(h) && j < h.prefix.counts.pubkeysLength
    ensures 32 * j as int + 32 <= |h.prefix.pubkeys|
    ensures KeyAt(h.prefix.pubkeys, j) == h.prefix.pubkeys[32 * j as int..32 * j as int + 32]
  {
    var x, y: int := j, h.prefix.counts.pubkeysLength;
    assert 32 * x + 32 <= 32 * y;
  }

  /** The program id. */
  lemma ProgramIdIs()
    ensures PROGRAM_ID == [242, 79, 6, 99, 64, 38, 134, 189, 153, 254, 99, 205, 191, 250, 117, 81,
                           77, 182, 210, 40, 135, 198, 34, 170, 239, 78, 246, 219, 237, 68, 245, 232]
  {
  }

  /** parse_agenc_instructions: accepts exactly the serialized fields of some kind with
      that kind's accounts, sent to the AgenC program. */
  method ParseAgencInstructions(i: Instruction, h: MessageHeader) returns (rc: int, info: AgencInfo)
    requires ValidKeys(h) && i.programIdIndex < h.prefix.counts.pubkeysLength
    ensures rc == 0 ==> KeyAt(h.prefix.pubkeys, i.programIdIndex) == PROGRAM_ID
    ensures rc == 0 ==> ValidFields(info.fields) && i.data == AgencBytes(info.fields)
                        && Accounts(KindOfFields(info.fields), i, h) == Some(info.accounts)
    ensures rc == 0 ==> ArtifactOf(ResultOf(info.fields), info.artifactHash)
    ensures rc == 0 && info.fields.CancelTask? ==> |i.accounts| == 15 + 3 * info.workers
    ensures InfoOf(i, h) == if rc == 0 then Some(info) else None
    ensures rc != 0 && KeyAt(h.prefix.pubkeys, i.programIdIndex) == PROGRAM_ID ==>
              forall f :: ValidFields(f) && i.data == AgencBytes(f) ==> Accounts(KindOfFields(f), i, h).None?
  {
    info := AgencInfo(ClaimTaskWithJobSpec, [], None, 0);
    if KeyAt(h.prefix.pubkeys, i.programIdIndex) != PROGRAM_ID {
      return 1, info;
    }
    var f;
    rc, f := ParseData(i.data);
    forall g ensures ReadAgencData(i.data) == Some(g) <==> ValidFields(g) && i.data == AgencBytes(g) {
      AgencDataIff(i.data, g);
    }
    if rc != 0 { return; }
    var accounts := Accounts(KindOfFields(f), i, h);
    if accounts.None? {
      rc := 1;
      return;
    }
    var shown := ShownArtifact(f);
    ArtifactUnique(ResultOf(f), shown);
    info := AgencInfo(f, accounts.value, shown, Workers(f, |i.accounts|));
  }
}
