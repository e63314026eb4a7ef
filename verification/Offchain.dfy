/** The off-chain message header of libsol/parser.c and libsol/include/sol/parser.h,
    and the signer lookup of src/utils.c. */
module Offchain {
  import opened Bytes
  import opened Wire
  import P = Parser

  /** "\xffsolana offchain" */
  const SIGNING_DOMAIN: seq<byte> :=
    [0xff, 0x73, 0x6f, 0x6c, 0x61, 0x6e, 0x61, 0x20, 0x6f, 0x66, 0x66, 0x63, 0x68, 0x61, 0x69, 0x6e]
  const APPLICATION_DOMAIN_LENGTH := 32

  datatype OffchainHeader = OffchainHeader(
    version: byte, applicationDomain: Option<seq<byte>>, format: byte,
    signersLength: nat, signers: seq<byte>, length: u16)

  /** offchain_message_header_length */
  function HeaderLength(h: OffchainHeader): nat {
    var base := 16 + 1 + 1 + PUBKEY_SIZE * h.signersLength + 2;
    if h.version == 0 then base + APPLICATION_DOMAIN_LENGTH + 1 else base
  }

  // ---------- memcmp order ----------

  /** memcmp(a, b) < 0 for blocks of equal size. */
  predicate BytesLess(a: seq<byte>, b: seq<byte>) {
    |a| > 0 && |b| > 0 && (a[0] < b[0] || (a[0] == b[0] && BytesLess(a[1..], b[1..])))
  }

  lemma {:induction false} BytesLessTransitive(a: seq<byte>, b: seq<byte>, c: seq<byte>)
    requires BytesLess(a, b) && BytesLess(b, c)
    ensures BytesLess(a, c)
  {
    if a[0] == b[0] == c[0] {
      BytesLessTransitive(a[1..], b[1..], c[1..]);
    }
  }

  lemma {:induction false} BytesLessIrreflexive(a: seq<byte>)
    ensures !BytesLess(a, a)
  {
    if |a| > 0 {
      BytesLessIrreflexive(a[1..]);
    }
  }

  /** Every signer but the first is greater than the one before it. */
  predicate StrictlyAscending(keys: seq<byte>, n: nat)
    requires |keys| == PUBKEY_SIZE * n
  {
    forall i :: 1 <= i < n ==> BytesLess(KeyAt(keys, i - 1), KeyAt(keys, i))
  }

  lemma {:induction false} AscendingApart(keys: seq<byte>, n: nat, i: nat, j: nat)
    requires |keys| == PUBKEY_SIZE * n && StrictlyAscending(keys, n) && i < j < n
    ensures BytesLess(KeyAt(keys, i), KeyAt(keys, j))
    decreases j - i
  {
    if i + 1 < j {
      AscendingApart(keys, n, i, j - 1);
      BytesLessTransitive(KeyAt(keys, i), KeyAt(keys, j - 1), KeyAt(keys, j));
    }
  }

  /** The adjacent check makes all signers pairwise distinct. */
  lemma AscendingDistinct(keys: seq<byte>, n: nat)
    requires |keys| == PUBKEY_SIZE * n && StrictlyAscending(keys, n)
    ensures forall i, j :: 0 <= i < n && 0 <= j < n && KeyAt(keys, i) == KeyAt(keys, j) ==> i == j
  {
    forall i, j | 0 <= i < n && 0 <= j < n && KeyAt(keys, i) == KeyAt(keys, j)
      ensures i == j
    {
      BytesLessIrreflexive(KeyAt(keys, i));
      if i < j {
        AscendingApart(keys, n, i, j);
      } else if j < i {
        AscendingApart(keys, n, j, i);
      }
    }
  }

  // ---------- the header ----------

  /** The version 0 fields; other versions have none. */
  function ReadV0Fields(s: seq<byte>, version: byte): Parsed<(Option<seq<byte>>, byte)> {
    if version == 0 then
      var (d, s1) :- ReadFixed(s, APPLICATION_DOMAIN_LENGTH);
      var (f, s2) :- ReadU8(s1);
      Done((Some(d), f), s2)
    else Done((None, 0), s)
  }

  function ReadSigners(s: seq<byte>, version: byte): Parsed<(byte, seq<byte>)> {
    var (n, s1) :- ReadU8(s);
    var (keys, s2) :- ReadFixed(s1, n * PUBKEY_SIZE);
    if version >= 1 && !StrictlyAscending(keys, n) then Fail else Done((n, keys), s2)
  }

  function ReadAfterDomain(s: seq<byte>): Parsed<OffchainHeader> {
    var (v, s1) :- ReadU8(s);
    var (f, s2) :- ReadV0Fields(s1, v);
    var (k, s3) :- ReadSigners(s2, v);
    var (n, s4) :- ReadU16(s3);
    Done(OffchainHeader(v, f.0, f.1, k.0, k.1, n), s4)
  }

  function ReadOffchain(s: seq<byte>): Parsed<OffchainHeader> {
    var (d, s1) :- ReadFixed(s, 16);
    if d != SIGNING_DOMAIN then Fail else ReadAfterDomain(s1)
  }

  ghost predicate ValidOffchain(h: OffchainHeader) {
    && (h.version == 0 <==> h.applicationDomain.Some?)
    && (h.version == 0 ==> |h.applicationDomain.value| == APPLICATION_DOMAIN_LENGTH)
    && (h.version > 0 ==> h.format == 0)
    && h.signersLength < 0x100 && |h.signers| == PUBKEY_SIZE * h.signersLength
    && (h.version > 0 ==> StrictlyAscending(h.signers, h.signersLength))
  }

  function V0Bytes(h: OffchainHeader): seq<byte> {
    if h.applicationDomain.Some? then h.applicationDomain.value + [h.format] else []
  }

  function OffchainBytes(h: OffchainHeader): seq<byte>
    requires h.signersLength < 0x100
  {
    SIGNING_DOMAIN + ([h.version] + (V0Bytes(h)
      + ([h.signersLength] + (h.signers + [h.length % 0x100, h.length / 0x100]))))
  }

  lemma V0FieldsIff(s: seq<byte>, version: byte, f: (Option<seq<byte>>, byte), t: seq<byte>)
    ensures ReadV0Fields(s, version) == Done(f, t)
       <==> (version == 0 <==> f.0.Some?) && (version == 0 ==> |f.0.value| == APPLICATION_DOMAIN_LENGTH)
            && (version > 0 ==> f.1 == 0)
            && s == (if f.0.Some? then f.0.value + [f.1] else []) + t
  {
    if version == 0 && f.0.Some? && |f.0.value| == APPLICATION_DOMAIN_LENGTH {
      var x := f.0.value + [f.1] + t;
      assert x[..32] == f.0.value && x[32..][0] == f.1 && x[32..][1..] == t;
      if |s| >= 33 {
        assert s == s[..32] + [s[32..][0]] + s[32..][1..];
      }
    }
  }

  lemma SignersIff(s: seq<byte>, version: byte, k: (byte, seq<byte>), t: seq<byte>)
    ensures ReadSigners(s, version) == Done(k, t)
       <==> |k.1| == PUBKEY_SIZE * k.0 && (version >= 1 ==> StrictlyAscending(k.1, k.0)) && s == [k.0] + (k.1 + t)
  {
    if |s| > 0 {
      assert s == [s[0]] + s[1..];
      var n := s[0] * PUBKEY_SIZE;
      if |s| - 1 >= n {
        assert s[1..] == s[1..][..n] + s[1..][n..];
      }
    }
    FixedRoundTrip(k.1, t);
    assert ([k.0] + (k.1 + t))[1..] == k.1 + t;
  }

  /** The fields after the signing domain. */
  function AfterDomain(h: OffchainHeader, t: seq<byte>): seq<byte>
    requires h.signersLength < 0x100
  {
    [h.version] + (V0Bytes(h) + ([h.signersLength] + (h.signers + ([h.length % 0x100, h.length / 0x100] + t))))
  }

  lemma OffchainSplit(h: OffchainHeader, t: seq<byte>)
    requires h.signersLength < 0x100
    ensures OffchainBytes(h) + t == SIGNING_DOMAIN + AfterDomain(h, t)
  {
    var n := [h.length % 0x100, h.length / 0x100];
    Assoc(h.signers, n, t);
    Assoc([h.signersLength], h.signers + n, t);
    Assoc(V0Bytes(h), [h.signersLength] + (h.signers + n), t);
    Assoc([h.version], V0Bytes(h) + ([h.signersLength] + (h.signers + n)), t);
    Assoc(SIGNING_DOMAIN, [h.version] + (V0Bytes(h) + ([h.signersLength] + (h.signers + n))), t);
  }

  lemma ReadBack(h: OffchainHeader, t: seq<byte>)
    requires ValidOffchain(h)
    ensures ReadOffchain(OffchainBytes(h) + t) == Done(h, t)
  {
    OffchainSplit(h, t);
    var s4 := [h.length % 0x100, h.length / 0x100] + t;
    var s3 := [h.signersLength] + (h.signers + s4);
    var s2 := V0Bytes(h) + s3;
    FixedRoundTrip(SIGNING_DOMAIN, [h.version] + s2);
    assert ([h.version] + s2)[1..] == s2;
    V0FieldsIff(s2, h.version, (h.applicationDomain, h.format), s3);
    SignersIff(s3, h.version, (h.signersLength, h.signers), s4);
    U16Iff(s4, h.length, t);
  }

  lemma ReserializeFields(s: seq<byte>)
    requires ReadAfterDomain(s).Done?
    ensures ValidOffchain(ReadAfterDomain(s).value)
    ensures s == AfterDomain(ReadAfterDomain(s).value, ReadAfterDomain(s).rest)
  {
    var h, t := ReadAfterDomain(s).value, ReadAfterDomain(s).rest;
    var f := ReadV0Fields(s[1..], h.version);
    var k := ReadSigners(f.rest, h.version);
    FieldsChain(s);
    V0FieldsIff(s[1..], h.version, f.value, f.rest);
    SignersIff(f.rest, h.version, k.value, k.rest);
    U16Iff(k.rest, h.length, t);
    FieldsJoin(s, h, f.value, f.rest, k.value, k.rest, t);
  }

  /** What was read is what the readers of the parts gave. */
  lemma FieldsChain(s: seq<byte>)
    requires ReadAfterDomain(s).Done?
    ensures var h := ReadAfterDomain(s).value;
            var f := ReadV0Fields(s[1..], h.version);
            && s == [h.version] + s[1..] && f.Done?
            && h.applicationDomain == f.value.0 && h.format == f.value.1
            && (var k := ReadSigners(f.rest, h.version);
                k.Done? && h.signersLength == k.value.0 && h.signers == k.value.1
                && ReadU16(k.rest) == Done(h.length, ReadAfterDomain(s).rest))
  {
  }

  lemma FieldsJoin(s: seq<byte>, h: OffchainHeader, f: (Option<seq<byte>>, byte), s2: seq<byte>, k: (byte, seq<byte>),
                   s3: seq<byte>, t: seq<byte>)
    requires |s| > 0 && s == [h.version] + s[1..] && h.signersLength == k.0 && h.signers == k.1
    requires h.applicationDomain == f.0 && h.format == f.1
    requires s[1..] == (if f.0.Some? then f.0.value + [f.1] else []) + s2
    requires s2 == [k.0] + (k.1 + s3) && s3 == [h.length % 0x100, h.length / 0x100] + t
    ensures s == AfterDomain(h, t)
  {
  }

  lemma Reserialize(s: seq<byte>)
    requires ReadOffchain(s).Done?
    ensures ValidOffchain(ReadOffchain(s).value)
    ensures s == OffchainBytes(ReadOffchain(s).value) + ReadOffchain(s).rest
  {
    ReserializeFields(s[16..]);
    assert s == s[..16] + s[16..];
    OffchainSplit(ReadOffchain(s).value, ReadOffchain(s).rest);
  }

  lemma HeaderLengthOf(h: OffchainHeader)
    requires ValidOffchain(h)
    ensures |OffchainBytes(h)| == HeaderLength(h)
  {
  }

  /** The header is read exactly when the bytes start with a well-formed one, and the
      message text starts offchain_message_header_length bytes in. */
  lemma OffchainIff(s: seq<byte>, h: OffchainHeader, t: seq<byte>)
    ensures ReadOffchain(s) == Done(h, t) <==> ValidOffchain(h) && s == OffchainBytes(h) + t
    ensures ReadOffchain(s) == Done(h, t) ==> HeaderLength(h) <= |s| && t == s[HeaderLength(h)..]
  {
    if ReadOffchain(s) == Done(h, t) {
      Reserialize(s);
      HeaderLengthOf(h);
    }
    if ValidOffchain(h) && s == OffchainBytes(h) + t {
      ReadBack(h, t);
    }
  }

  // ---------- the methods ----------

  /** The version 0 fields of parse_offchain_message_header. */
  method ParseV0Fields(p: P.Parser, version: byte) returns (rc: int, domain: Option<seq<byte>>, format: byte)
    requires p.Valid()
    modifies p`at
    ensures p.Valid() && P.Reports(ReadV0Fields(old(p.Rest()), version), rc, (domain, format), p.Rest())
  {
    domain, format, rc := None, 0, 0;
    if version == 0 {
      var d, ptr;
      rc, d, ptr := p.ParseFixed(APPLICATION_DOMAIN_LENGTH);
      if rc != 0 { return; }
      domain := Some(d);
      rc, format := p.ParseU8();
    }
  }

  /** The signers and, from version 1 on, the loop that checks their order. */
  method ParseSigners(p: P.Parser, version: byte) returns (rc: int, n: byte, signers: seq<byte>)
    requires p.Valid()
    modifies p`at
    ensures p.Valid() && P.Reports(ReadSigners(old(p.Rest()), version), rc, (n, signers), p.Rest())
  {
    signers := [];
    var ptr;
    rc, n := p.ParseU8();
    if rc != 0 { return; }
    rc, signers, ptr := p.ParseFixed(n * PUBKEY_SIZE);
    if rc != 0 { return; }
    if version >= 1 && n >= 1 {
      for i := 1 to n
        invariant forall j :: 1 <= j < i ==> BytesLess(KeyAt(signers, j - 1), KeyAt(signers, j))
      {
        if !BytesLess(KeyAt(signers, i - 1), KeyAt(signers, i)) {
          rc := -1;
          return;
        }
      }
    }
  }

  /** parse_offchain_message_header */
  method ParseOffchainMessageHeader(p: P.Parser) returns (rc: int, header: OffchainHeader)
    requires p.Valid()
    modifies p`at
    ensures p.Valid() && P.Reports(ReadOffchain(old(p.Rest())), rc, header, p.Rest())
  {
    header := OffchainHeader(0, None, 0, 0, [], 0);
    var d, ptr, version, domain, format, n, signers, length;
    rc, d, ptr := p.ParseFixed(16);
    if rc != 0 { return; }
    if d != SIGNING_DOMAIN {
      rc := 1;
      return;
    }
    rc, version := p.ParseU8();
    if rc != 0 { return; }
    rc, domain, format := ParseV0Fields(p, version);
    if rc != 0 { return; }
    rc, n, signers := ParseSigners(p, version);
    if rc != 0 { return; }
    rc, length := p.ParseU16();
    if rc != 0 { return; }
    header := OffchainHeader(version, domain, format, n, signers, length);
  }

  /** get_pubkey_index: the first match. */
  method GetPubkeyIndex(needle: seq<byte>, haystack: seq<byte>, n: nat) returns (rc: int, index: nat)
    requires |needle| == PUBKEY_SIZE && |haystack| == PUBKEY_SIZE * n
    ensures rc == 0 ==> index < n && KeyAt(haystack, index) == needle
                        && forall i :: 0 <= i < index ==> KeyAt(haystack, i) != needle
    ensures rc != 0 ==> rc == -1 && forall i :: 0 <= i < n ==> KeyAt(haystack, i) != needle
  {
    for i := 0 to n
      invariant forall j :: 0 <= j < i ==> KeyAt(haystack, j) != needle
    {
      if KeyAt(haystack, i) == needle {
        return 0, i;
      }
    }
    return -1, 0;
  }

  /** From version 1 on, the signer found in a parsed header is the only match. */
  lemma OnlyMatch(s: seq<byte>, needle: seq<byte>, i: nat)
    requires ReadOffchain(s).Done? && ReadOffchain(s).value.version > 0
    requires i < ReadOffchain(s).value.signersLength
    requires |ReadOffchain(s).value.signers| == PUBKEY_SIZE * ReadOffchain(s).value.signersLength
    requires KeyAt(ReadOffchain(s).value.signers, i) == needle
    ensures forall j :: 0 <= j < ReadOffchain(s).value.signersLength && j != i ==>
                          KeyAt(ReadOffchain(s).value.signers, j) != needle
  {
    Reserialize(s);
    AscendingDistinct(ReadOffchain(s).value.signers, ReadOffchain(s).value.signersLength);
  }

  /** The order is that of the first byte that differs. */
  lemma {:induction false} BytesLessIff(a: seq<byte>, b: seq<byte>)
    requires |a| == |b|
    ensures BytesLess(a, b) <==> exists k :: 0 <= k < |a| && a[..k] == b[..k] && a[k] < b[k]
  {
    if |a| > 0 {
      var s, t := a[1..], b[1..];
      BytesLessIff(s, t);
      if BytesLess(a, b) && a[0] == b[0] {
        var k :| 0 <= k < |s| && s[..k] == t[..k] && s[k] < t[k];
        assert a[..k + 1] == [a[0]] + s[..k] && b[..k + 1] == [b[0]] + t[..k];
        assert a[k + 1] < b[k + 1];
      }
      if k :| 0 <= k < |a| && a[..k] == b[..k] && a[k] < b[k] {
        if k > 0 {
          assert a[0] == a[..k][0] == b[..k][0] == b[0];
          assert s[..k - 1] == a[..k][1..] && t[..k - 1] == b[..k][1..] && s[k - 1] < t[k - 1];
        } else {
          assert a[0] < b[0];
        }
      }
    }
  }

  /** The signing domain is a byte that no text starts with, and a text. */
  lemma DomainIs()
    ensures |SIGNING_DOMAIN| == 16 && SIGNING_DOMAIN[0] == 0xff && APPLICATION_DOMAIN_LENGTH == 32
    ensures forall i :: 0 <= i < 15 ==> SIGNING_DOMAIN[i + 1] == "solana offchain"[i] as int
  {
  }
}
