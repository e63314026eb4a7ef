/** The Parser cursor of libsol/parser.c. Every method advances it as the matching
    reader of module Wire says; on failure the cursor may have moved. */
module Parser {
  import opened Bytes
  import opened Wire
  import opened Blockhash

  /** The outcome of a reader, as the C functions report it: zero and the value, or a
      non-zero code. */
  ghost predicate Reports<T>(r: Parsed<T>, rc: int, value: T, rest: seq<byte>) {
    (rc == 0 <==> r.Done?) && (r.Done? ==> value == r.value && rest == r.rest)
  }

  lemma ShortU64(s: seq<byte>)
    ensures ReadU64(s).Done? <==> |s| >= 8
  {
    if |s| >= 8 {
      assert |ReadU32(s).rest| == |s| - 4;
    } else if ReadU32(s).Done? {
      assert |ReadU32(s).rest| == |s| - 4;
    }
  }

  class Parser {
    const source: seq<byte>
    /** Position of the cursor; what is left is source[at..]. */
    var at: nat

    ghost predicate Valid()
      reads this
    {
      at <= |source|
    }

    function Rest(): seq<byte>
      reads this
      requires Valid()
    {
      source[at..]
    }

    constructor (source: seq<byte>)
      ensures Valid() && this.source == source && at == 0 && Rest() == source
    {
      this.source := source;
      at := 0;
    }

    /** parser_is_empty */
    method IsEmpty() returns (r: bool)
      requires Valid()
      ensures r <==> Rest() == []
    {
      r := |source| - at == 0;
    }

    method Advance(n: nat)
      requires Valid() && n <= |Rest()|
      modifies this`at
      ensures Valid() && Rest() == old(Rest())[n..] && at == old(at) + n
    {
      at := at + n;
    }

    method ParseU8() returns (rc: int, value: byte)
      requires Valid()
      modifies this`at
      ensures Valid() && Reports(ReadU8(old(Rest())), rc, value, Rest())
    {
      if |source| - at < 1 {
        return 1, 0;
      }
      value := source[at];
      Advance(1);
      rc := 0;
    }

    method ParseU16() returns (rc: int, value: u16)
      requires Valid()
      modifies this`at
      ensures Valid() && Reports(ReadU16(old(Rest())), rc, value, Rest())
    {
      var lower, upper;
      value := 0;
      rc, lower := ParseU8();
      if rc != 0 { return; }
      rc, upper := ParseU8();
      if rc != 0 { return; }
      value := lower as int + upper as int * 0x100;
    }

    method ParseU32() returns (rc: int, value: u32)
      requires Valid()
      modifies this`at
      ensures Valid() && Reports(ReadU32(old(Rest())), rc, value, Rest())
    {
      var lower, upper;
      value := 0;
      rc, lower := ParseU16();
      if rc != 0 { return; }
      rc, upper := ParseU16();
      if rc != 0 { return; }
      value := lower as int + upper as int * 0x1_0000;
    }

    method ParseU64() returns (rc: int, value: u64)
      requires Valid()
      modifies this`at
      ensures Valid() && Reports(ReadU64(old(Rest())), rc, value, Rest())
    {
      ShortU64(Rest());
      if |source| - at < 8 {
        return 1, 0;
      }
      var lower, upper;
      value := 0;
      rc, lower := ParseU32();
      if rc != 0 { return; }
      rc, upper := ParseU32();
      if rc != 0 { return; }
      value := lower as int + upper as int * 0x1_0000_0000;
    }

    method ParseLength() returns (rc: int, value: nat)
      requires Valid()
      modifies this`at
      ensures Valid() && Reports(ReadLength(old(Rest())), rc, value, Rest())
    {
      var b;
      value := 0;
      rc, b := ParseU8();
      if rc != 0 { return; }
      value := b % 0x80;
      if b >= 0x80 {
        rc, b := ParseU8();
        if rc != 0 { return; }
        value := b % 0x80 * 0x80 + value;
        if b >= 0x80 {
          rc, b := ParseU8();
          if rc != 0 { return; }
          value := b % 0x80 * 0x4000 + value;
        }
      }
    }

    /** A block of n bytes; the pointer handed out is the position it starts at. */
    method ParseFixed(n: nat) returns (rc: int, value: seq<byte>, ptr: nat)
      requires Valid()
      modifies this`at
      ensures Valid() && Reports(ReadFixed(old(Rest()), n), rc, value, Rest())
      ensures rc == 0 ==> ptr == old(at) && at == ptr + n
    {
      if |source| - at < n {
        return 1, [], 0;
      }
      ptr := at;
      value := source[at..at + n];
      assert value == Rest()[..n];
      Advance(n);
      rc := 0;
    }

    method ParsePubkeysHeader() returns (rc: int, header: PubkeysHeader)
      requires Valid()
      modifies this`at
      ensures Valid() && Reports(ReadPubkeysHeader(old(Rest())), rc, header, Rest())
    {
      header := PubkeysHeader(0, 0, 0, 0);
      var b, n;
      rc, b := ParseU8();
      if rc != 0 { return; }
      header := header.(required := b);
      rc, b := ParseU8();
      if rc != 0 { return; }
      header := header.(readonlySigned := b);
      rc, b := ParseU8();
      if rc != 0 { return; }
      header := header.(readonlyUnsigned := b);
      rc, n := ParseLength();
      if rc != 0 { return; }
      if n > 0xFFFF {
        rc := 1;
        return;
      }
      header := header.(pubkeysLength := n);
    }

    method ParseVersion() returns (rc: int, versioned: bool, version: byte)
      requires Valid()
      modifies this`at
      ensures Valid() && Reports(ReadVersion(old(Rest())), rc, (versioned, version), Rest())
    {
      if |source| - at < 1 {
        return 1, false, 0;
      }
      var b := source[at];
      if b >= 0x80 {
        versioned := true;
        version := b % 0x80;
        Advance(1);
      } else {
        versioned := false;
        version := 0;
      }
      rc := 0;
    }

    /** The three checks of the counts against each other. */
    static method CheckCounts(counts: PubkeysHeader) returns (rc: int)
      ensures rc == 0 <==> CountsConsistent(counts)
    {
      if counts.required > counts.pubkeysLength {
        return 1;
      }
      if counts.readonlySigned > counts.required {
        return 1;
      }
      if counts.readonlyUnsigned > counts.pubkeysLength - counts.required {
        return 1;
      }
      return 0;
    }

    /** The counts and the keys. */
    method ParseKeys() returns (rc: int, counts: PubkeysHeader, keys: seq<byte>)
      requires Valid()
      modifies this`at
      ensures Valid() && Reports(ReadKeys(old(Rest())), rc, (counts, keys), Rest())
    {
      keys := [];
      var ptr;
      rc, counts := ParsePubkeysHeader();
      if rc != 0 { return; }
      rc := CheckCounts(counts);
      if rc != 0 { return; }
      rc, keys, ptr := ParseFixed(counts.pubkeysLength * PUBKEY_SIZE);
    }

    /** The part of parse_message_header before the blockhash. */
    method ParsePrefix() returns (rc: int, prefix: Prefix)
      requires Valid()
      modifies this`at
      ensures Valid() && Reports(ReadPrefix(old(Rest())), rc, prefix, Rest())
    {
      prefix := Prefix(false, 0, PubkeysHeader(0, 0, 0, 0), []);
      var versioned, version, counts, keys;
      rc, versioned, version := ParseVersion();
      if rc != 0 { return; }
      rc, counts, keys := ParseKeys();
      if rc != 0 { return; }
      prefix := Prefix(versioned, version, counts, keys);
    }

    /** parse_message_header; blockhashPtr is the position of the blockhash. */
    method ParseMessageHeader() returns (rc: int, header: MessageHeader, blockhashPtr: nat)
      requires Valid()
      modifies this`at
      ensures Valid() && Reports(ReadHeader(old(Rest())), rc, header, Rest())
      ensures rc == 0 ==> blockhashPtr == old(at) + BlockhashAt(old(Rest()))
    {
      header := MessageHeader(Prefix(false, 0, PubkeysHeader(0, 0, 0, 0), []), [], 0);
      blockhashPtr := 0;
      var prefix, hash, n;
      ghost var s := Rest();
      rc, prefix := ParsePrefix();
      if rc != 0 { return; }
      rc, hash, blockhashPtr := ParseFixed(HASH_SIZE);
      if rc != 0 { return; }
      rc, n := ParseLength();
      if rc != 0 { return; }
      header := MessageHeader(prefix, hash, n);
    }

    method ParseData() returns (rc: int, data: seq<byte>)
      requires Valid()
      modifies this`at
      ensures Valid() && Reports(ReadData(old(Rest())), rc, data, Rest())
    {
      data := [];
      var n, ptr;
      rc, n := ParseLength();
      if rc != 0 { return; }
      rc, data, ptr := ParseFixed(n);
    }

    method ParseInstruction() returns (rc: int, instruction: Instruction)
      requires Valid()
      modifies this`at
      ensures Valid() && Reports(ReadInstruction(old(Rest())), rc, instruction, Rest())
    {
      instruction := Instruction(0, [], []);
      var b, accounts, data;
      rc, b := ParseU8();
      if rc != 0 { return; }
      rc, accounts := ParseData();
      if rc != 0 { return; }
      rc, data := ParseData();
      if rc != 0 { return; }
      instruction := Instruction(b, accounts, data);
    }

    /** parse_option: the tag must be 0 or 1. */
    method ParseOption() returns (rc: int, some: bool)
      requires Valid()
      modifies this`at
      ensures Valid()
      ensures rc == 0 <==> |old(Rest())| > 0 && old(Rest())[0] <= 1
      ensures rc == 0 ==> some == (old(Rest())[0] == 1) && Rest() == old(Rest())[1..]
    {
      some := false;
      var b;
      rc, b := ParseU8();
      if rc != 0 { return; }
      if b > 1 {
        rc := 1;
        return;
      }
      some := b == 1;
    }
  }
}
