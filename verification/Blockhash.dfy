/** Where the blockhash is, and what zeroing it leaves: the parser lemma behind the
    fingerprint of src/handle_sign_message_preview.c. */
module Blockhash {
  import opened Bytes
  import opened Wire

  /** The counts are the first three bytes and the length after them. */
  lemma CountsOf(s: seq<byte>)
    ensures ReadPubkeysHeader(s) ==
            if |s| < 3 || ReadLength(s[3..]).Fail? || ReadLength(s[3..]).value > 0xFFFF then Fail
            else Done(PubkeysHeader(s[0], s[1], s[2], ReadLength(s[3..]).value), ReadLength(s[3..]).rest)
  {
    if |s| >= 3 {
      assert s[1..][1..][1..] == s[3..];
    }
  }

  lemma CountsFrom(x: seq<byte>, c: PubkeysHeader, u: seq<byte>)
    requires |x| >= 3 && ReadLength(x[3..]) == Done(c.pubkeysLength, u)
    requires x[0] == c.required && x[1] == c.readonlySigned && x[2] == c.readonlyUnsigned
    ensures ReadPubkeysHeader(x) == Done(c, u)
  {
    CountsOf(x);
  }

  lemma CountsLocal(s: seq<byte>, u: seq<byte>)
    requires ReadPubkeysHeader(s).Done?
    ensures var r := ReadPubkeysHeader(s);
            && Suffix(s, r.rest)
            && ReadPubkeysHeader(s[..|s| - |r.rest|] + u) == Done(r.value, u)
  {
    CountsOf(s);
    var t := s[3..];
    LengthLocal(t, u);
    var n := |t| - |ReadLength(t).rest|;
    var x := s[..n + 3] + u;
    assert x[3..] == t[..n] + u && x[0] == s[0] && x[1] == s[1] && x[2] == s[2];
    CountsFrom(x, ReadPubkeysHeader(s).value, u);
    assert s[n + 3..] == t[n..];
  }

  /** r is what is left of s after a prefix. */
  predicate Suffix(s: seq<byte>, r: seq<byte>) { |r| < |s| && s[|s| - |r|..] == r }

  lemma CutTwice(s: seq<byte>, t: seq<byte>, r: seq<byte>, u: seq<byte>)
    requires Suffix(s, t) && Suffix(t, r)
    ensures Suffix(s, r) && s[..|s| - |r|] + u == s[..|s| - |t|] + (t[..|t| - |r|] + u)
  {
  }

  /** The bytes before r are those before t, and then keys. */
  lemma CutKeys(s: seq<byte>, t: seq<byte>, keys: seq<byte>, r: seq<byte>, u: seq<byte>)
    requires Suffix(s, t) && t == keys + r
    ensures Suffix(s, r) && s[..|s| - |r|] + u == s[..|s| - |t|] + (keys + u)
  {
    assert s == s[..|s| - |t|] + t;
  }

  lemma KeysLocal(s: seq<byte>, u: seq<byte>)
    requires ReadKeys(s).Done?
    ensures var r := ReadKeys(s);
            Suffix(s, r.rest) && ReadKeys(s[..|s| - |r.rest|] + u) == Done(r.value, u)
  {
    var c := ReadPubkeysHeader(s);
    var keys, r := ReadKeys(s).value.1, ReadKeys(s).rest;
    KeysParts(s);
    CountsLocal(s, keys + u);
    CutKeys(s, c.rest, keys, r, u);
    KeysFrom(s[..|s| - |r|] + u, c.value, keys, u);
  }

  lemma KeysParts(s: seq<byte>)
    requires ReadKeys(s).Done?
    ensures var c := ReadPubkeysHeader(s); var k := ReadKeys(s);
            && c.Done? && CountsConsistent(c.value) && |k.value.1| == c.value.pubkeysLength * PUBKEY_SIZE
            && k.value.0 == c.value && c.rest == k.value.1 + k.rest
  {
  }

  lemma KeysFrom(x: seq<byte>, c: PubkeysHeader, keys: seq<byte>, u: seq<byte>)
    requires ReadPubkeysHeader(x) == Done(c, keys + u) && CountsConsistent(c)
    requires |keys| == c.pubkeysLength * PUBKEY_SIZE
    ensures ReadKeys(x) == Done((c, keys), u)
  {
    FixedRoundTrip(keys, u);
  }

  /** The bytes before the blockhash determine the prefix: the reader looked at no
      others. */
  lemma PrefixLocal(s: seq<byte>, u: seq<byte>)
    requires ReadPrefix(s).Done?
    ensures var r := ReadPrefix(s);
            Suffix(s, r.rest) && ReadPrefix(s[..|s| - |r.rest|] + u) == Done(r.value, u)
  {
    var v := ReadVersion(s);
    var r := ReadPrefix(s).rest;
    KeysLocal(v.rest, u);
    if s[0] >= 0x80 {
      CutTwice(s, v.rest, r, u);
      assert ([s[0]] + (v.rest[..|v.rest| - |r|] + u))[1..] == v.rest[..|v.rest| - |r|] + u;
    }
  }

  /** Offset of the blockhash in a message, blockhash_ptr - message. */
  function BlockhashAt(m: seq<byte>): (o: nat)
    requires ReadHeader(m).Done?
    ensures o + HASH_SIZE <= |m|
  {
    PrefixLocal(m, []);
    |m| - |ReadPrefix(m).rest|
  }

  /** The three pieces that are hashed: before the blockhash, zeros, after it. */
  function Zeroed(m: seq<byte>): (z: seq<byte>)
    requires ReadHeader(m).Done?
    ensures |z| == |m|
  {
    var o := BlockhashAt(m);
    m[..o] + Zeros(HASH_SIZE) + m[o + HASH_SIZE..]
  }

  /** The message with another blockhash in the same place. */
  function WithBlockhash(m: seq<byte>, hash: seq<byte>): seq<byte>
    requires ReadHeader(m).Done? && |hash| == HASH_SIZE
  {
    var o := BlockhashAt(m);
    m[..o] + hash + m[o + HASH_SIZE..]
  }

  lemma PrefixAt(m: seq<byte>, u: seq<byte>, r: Parsed<Prefix>, o: nat)
    requires r == ReadPrefix(m) && r.Done? && |r.rest| <= |m| && o == |m| - |r.rest|
    ensures r == Done(r.value, m[o..]) && ReadPrefix(m[..o] + u) == Done(r.value, u)
  {
    PrefixLocal(m, u);
  }

  lemma PrefixOf(m: seq<byte>, u: seq<byte>)
    requires ReadHeader(m).Done?
    ensures var o := BlockhashAt(m);
            ReadPrefix(m) == Done(ReadPrefix(m).value, m[o..]) && ReadPrefix(m[..o] + u) == Done(ReadPrefix(m).value, u)
  {
    PrefixAt(m, u, ReadPrefix(m), BlockhashAt(m));
  }

  /** What the header says in terms of the offset. */
  lemma HeaderAt(m: seq<byte>)
    requires ReadHeader(m).Done?
    ensures var o, h := BlockhashAt(m), ReadHeader(m);
            && h.value.prefix == ReadPrefix(m).value && h.value.blockhash == m[o..o + HASH_SIZE]
            && ReadLength(m[o + HASH_SIZE..]) == Done(h.value.instructionsLength, h.rest)
  {
    PrefixOf(m, []);
    var o := BlockhashAt(m);
    assert m[o..][..HASH_SIZE] == m[o..o + HASH_SIZE] && m[o..][HASH_SIZE..] == m[o + HASH_SIZE..];
  }

  /** A replaced blockhash moves nothing. */
  lemma ReplaceBlockhash(m: seq<byte>, hash: seq<byte>)
    requires ReadHeader(m).Done? && |hash| == HASH_SIZE
    ensures var w, h := WithBlockhash(m, hash), ReadHeader(m);
            && ReadHeader(w) == Done(h.value.(blockhash := hash), h.rest)
            && BlockhashAt(w) == BlockhashAt(m) && Zeroed(w) == Zeroed(m)
  {
    var o := BlockhashAt(m);
    var tail := m[o + HASH_SIZE..];
    var w := WithBlockhash(m, hash);
    assert w == m[..o] + (hash + tail);
    PrefixOf(m, hash + tail);
    HeaderAt(m);
    FixedRoundTrip(hash, tail);
    assert |ReadPrefix(w).rest| == |m| - o;
    assert w[..o] == m[..o] && w[o + HASH_SIZE..] == tail;
  }

  /** Two messages with the same fingerprint input have their blockhash in the same
      place, and the same header, keys and instruction bytes. */
  lemma SameZeroed(m: seq<byte>, w: seq<byte>)
    requires ReadHeader(m).Done? && ReadHeader(w).Done? && Zeroed(m) == Zeroed(w)
    ensures BlockhashAt(m) == BlockhashAt(w) && w == WithBlockhash(m, ReadHeader(w).value.blockhash)
    ensures ReadHeader(w).value == ReadHeader(m).value.(blockhash := ReadHeader(w).value.blockhash)
    ensures ReadHeader(w).rest == ReadHeader(m).rest
  {
    ReplaceBlockhash(m, Zeros(HASH_SIZE));
    ReplaceBlockhash(w, Zeros(HASH_SIZE));
    assert Zeroed(m) == WithBlockhash(m, Zeros(HASH_SIZE)) && Zeroed(w) == WithBlockhash(w, Zeros(HASH_SIZE));
    HeaderAt(w);
    SamePieces(m, w, BlockhashAt(m));
    ReplaceBlockhash(m, ReadHeader(w).value.blockhash);
  }

  lemma SamePieces(m: seq<byte>, w: seq<byte>, o: nat)
    requires o + HASH_SIZE <= |m| == |w|
    requires m[..o] + Zeros(HASH_SIZE) + m[o + HASH_SIZE..] == w[..o] + Zeros(HASH_SIZE) + w[o + HASH_SIZE..]
    ensures w == m[..o] + w[o..o + HASH_SIZE] + m[o + HASH_SIZE..]
  {
    var x, y := m[..o] + Zeros(HASH_SIZE) + m[o + HASH_SIZE..], w[..o] + Zeros(HASH_SIZE) + w[o + HASH_SIZE..];
    assert x[..o] == m[..o] && y[..o] == w[..o];
    assert x[o + HASH_SIZE..] == m[o + HASH_SIZE..] && y[o + HASH_SIZE..] == w[o + HASH_SIZE..];
  }
}
