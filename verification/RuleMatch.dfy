/** The 64-byte flow key: its layout, how two keys are compared under a mask, and how a value
    in network order is written into one. */
module RuleMatch {
  const KEY_BYTES: nat := 64

  const ZEROS: seq<bv8> := [0, 0, 0, 0, 0, 0, 0, 0, 0, 0, 0, 0, 0, 0, 0, 0]

  type Key = s: seq<bv8> | |s| == KEY_BYTES witness ZEROS + ZEROS + ZEROS + ZEROS

  /** Offsets of the fields of struct flow; IPv4 and IPv6 share the bytes from 20 on. */
  const DMAC: nat := 0
  const SMAC: nat := 6
  const TCI: nat := 12
  const TYPE: nat := 14
  const PROTO: nat := 16
  const TOS: nat := 17
  const TTL: nat := 18
  const PORT: nat := 19
  const IPV4_SRC: nat := 20
  const IPV4_DST: nat := 24
  const IPV4_SPORT: nat := 28
  const IPV4_DPORT: nat := 30
  const IPV6_SRC: nat := 20
  const IPV6_DST: nat := 36
  const IPV6_SPORT: nat := 56
  const IPV6_DPORT: nat := 58

  // ---------------------------------------------------------------- comparing keys

  /** Little-endian words. */
  function Join16(low: bv8, high: bv8): bv16 { (low as bv16) | ((high as bv16) << 8) }

  function Join32(low: bv16, high: bv16): bv32 { (low as bv32) | ((high as bv32) << 16) }

  function Join64(low: bv32, high: bv32): bv64 { (low as bv64) | ((high as bv64) << 32) }

  function Word32(s: seq<bv8>, i: nat): bv32
    requires 4 * i + 4 <= |s|
  {
    Join32(Join16(s[4 * i], s[4 * i + 1]), Join16(s[4 * i + 2], s[4 * i + 3]))
  }

  function Word64(s: seq<bv8>, i: nat): bv64
    requires 8 * i + 8 <= |s|
  {
    Join64(Word32(s, 2 * i), Word32(s, 2 * i + 1))
  }

  /** The bits the mask selects in which two words differ. */
  function Differ8(a: bv8, b: bv8, m: bv8): bv8 { (a ^ b) & m }

  function Differ16(a: bv16, b: bv16, m: bv16): bv16 { (a ^ b) & m }

  function Differ32(a: bv32, b: bv32, m: bv32): bv32 { (a ^ b) & m }

  function Differ64(a: bv64, b: bv64, m: bv64): bv64 { (a ^ b) & m }

  predicate ByteMatches(a: bv8, b: bv8, m: bv8) { Differ8(a, b, m) == 0 }

  /** Equality of two keys in every bit the mask selects. */
  predicate MaskedEqual(a: Key, b: Key, m: Key) {
    forall j :: 0 <= j < KEY_BYTES ==> ByteMatches(a[j], b[j], m[j])
  }

  lemma Join16Differs(a: bv8, a': bv8, b: bv8, b': bv8, m: bv8, m': bv8)
    ensures Differ16(Join16(a, a'), Join16(b, b'), Join16(m, m')) == 0
            <==> Differ8(a, b, m) == 0 && Differ8(a', b', m') == 0
  {
    hide Join16, Differ16, Differ8;
    Join16Differ(a, a', b, b', m, m');
    Join16Zero(Differ16(Join16(a, a'), Join16(b, b'), Join16(m, m')),
               Differ8(a, b, m), Differ8(a', b', m'));
  }

  lemma Join16Differ(a: bv8, a': bv8, b: bv8, b': bv8, m: bv8, m': bv8)
    ensures Differ16(Join16(a, a'), Join16(b, b'), Join16(m, m'))
            == Join16(Differ8(a, b, m), Differ8(a', b', m'))
  {
  }

  lemma Join16Zero(x: bv16, low: bv8, high: bv8)
    requires x == Join16(low, high)
    ensures x == 0 <==> low == 0 && high == 0
  {
  }

  lemma Join32Differs(a: bv16, a': bv16, b: bv16, b': bv16, m: bv16, m': bv16)
    ensures Differ32(Join32(a, a'), Join32(b, b'), Join32(m, m')) == 0
            <==> Differ16(a, b, m) == 0 && Differ16(a', b', m') == 0
  {
    hide Join32, Differ32, Differ16;
    Join32Differ(a, a', b, b', m, m');
    Join32Zero(Differ32(Join32(a, a'), Join32(b, b'), Join32(m, m')),
               Differ16(a, b, m), Differ16(a', b', m'));
  }

  lemma Join32Differ(a: bv16, a': bv16, b: bv16, b': bv16, m: bv16, m': bv16)
    ensures Differ32(Join32(a, a'), Join32(b, b'), Join32(m, m'))
            == Join32(Differ16(a, b, m), Differ16(a', b', m'))
  {
  }

  lemma Join32Zero(x: bv32, low: bv16, high: bv16)
    requires x == Join32(low, high)
    ensures x == 0 <==> low == 0 && high == 0
  {
  }

  lemma Join64Differs(a: bv32, a': bv32, b: bv32, b': bv32, m: bv32, m': bv32)
    ensures Differ64(Join64(a, a'), Join64(b, b'), Join64(m, m')) == 0
            <==> Differ32(a, b, m) == 0 && Differ32(a', b', m') == 0
  {
    hide Join64, Differ64, Differ32;
    Join64Differ(a, a', b, b', m, m');
    Join64Zero(Differ64(Join64(a, a'), Join64(b, b'), Join64(m, m')),
               Differ32(a, b, m), Differ32(a', b', m'));
  }

  lemma Join64Differ(a: bv32, a': bv32, b: bv32, b': bv32, m: bv32, m': bv32)
    ensures Differ64(Join64(a, a'), Join64(b, b'), Join64(m, m'))
            == Join64(Differ32(a, b, m), Differ32(a', b', m'))
  {
  }

  lemma Join64Zero(x: bv64, low: bv32, high: bv32)
    requires x == Join64(low, high)
    ensures x == 0 <==> low == 0 && high == 0
  {
  }

  lemma Word32Matches(a: Key, b: Key, m: Key, i: nat)
    requires 4 * i + 4 <= KEY_BYTES
    ensures Differ32(Word32(a, i), Word32(b, i), Word32(m, i)) == 0
            <==> forall j :: 4 * i <= j < 4 * i + 4 ==> ByteMatches(a[j], b[j], m[j])
  {
    hide Join16, Join32, Differ8, Differ16, Differ32;
    var j := 4 * i;
    Join32Differs(Join16(a[j], a[j + 1]), Join16(a[j + 2], a[j + 3]),
                  Join16(b[j], b[j + 1]), Join16(b[j + 2], b[j + 3]),
                  Join16(m[j], m[j + 1]), Join16(m[j + 2], m[j + 3]));
    Join16Differs(a[j], a[j + 1], b[j], b[j + 1], m[j], m[j + 1]);
    Join16Differs(a[j + 2], a[j + 3], b[j + 2], b[j + 3], m[j + 2], m[j + 3]);
  }

  lemma Word64Matches(a: Key, b: Key, m: Key, i: nat)
    requires 8 * i + 8 <= KEY_BYTES
    ensures Differ64(Word64(a, i), Word64(b, i), Word64(m, i)) == 0
            <==> forall j :: 8 * i <= j < 8 * i + 8 ==> ByteMatches(a[j], b[j], m[j])
  {
    hide Join64, Word32, ByteMatches, Differ32, Differ64;
    Join64Differs(Word32(a, 2 * i), Word32(a, 2 * i + 1), Word32(b, 2 * i), Word32(b, 2 * i + 1),
                  Word32(m, 2 * i), Word32(m, 2 * i + 1));
    Word32Matches(a, b, m, 2 * i);
    Word32Matches(a, b, m, 2 * i + 1);
  }

  /** cmp_key32: sixteen words, stopping at the first difference. */
  method CmpKey32(rule: Key, key: Key, mask: Key) returns (equal: bool)
    ensures equal <==> MaskedEqual(rule, key, mask)
  {
    hide Word32, ByteMatches, Differ32;
    var diffs: bv32 := 0;
    var i, cnt := 0, KEY_BYTES / 4;
    while i < cnt && diffs == 0
      invariant i <= cnt
      invariant diffs == 0 <==> forall j :: 0 <= j < 4 * i ==> ByteMatches(rule[j], key[j], mask[j])
    {
      Word32Matches(rule, key, mask, i);
      OrZero32(diffs, Differ32(Word32(rule, i), Word32(key, i), Word32(mask, i)));
      diffs := diffs | Differ32(Word32(rule, i), Word32(key, i), Word32(mask, i));
      i := i + 1;
    }
    equal := diffs == 0;
  }

  /** cmp_key: eight double words. */
  method CmpKey(rule: Key, key: Key, mask: Key) returns (equal: bool)
    ensures equal <==> MaskedEqual(rule, key, mask)
  {
    hide Word64, ByteMatches, Differ64;
    var diffs: bv64 := 0;
    var i, cnt := 0, KEY_BYTES / 8;
    while i < cnt && diffs == 0
      invariant i <= cnt
      invariant diffs == 0 <==> forall j :: 0 <= j < 8 * i ==> ByteMatches(rule[j], key[j], mask[j])
    {
      Word64Matches(rule, key, mask, i);
      OrZero64(diffs, Differ64(Word64(rule, i), Word64(key, i), Word64(mask, i)));
      diffs := diffs | Differ64(Word64(rule, i), Word64(key, i), Word64(mask, i));
      i := i + 1;
    }
    equal := diffs == 0;
  }

  lemma OrZero32(a: bv32, b: bv32)
    ensures a | b == 0 <==> a == 0 && b == 0
  {
  }

  lemma OrZero64(a: bv64, b: bv64)
    ensures a | b == 0 <==> a == 0 && b == 0
  {
  }

  // ---------------------------------------------------------------- writing fields

  function Reversed(s: seq<bv8>): (r: seq<bv8>)
    ensures |r| == |s|
    ensures forall k :: 0 <= k < |s| ==> r[k] == s[|s| - 1 - k]
  {
    seq(|s|, k requires 0 <= k < |s| => s[|s| - 1 - k])
  }

  /** A key with some bytes replaced. */
  function Put(key: Key, at: nat, bytes: seq<bv8>): (r: Key)
    requires at + |bytes| <= KEY_BYTES
    ensures forall j :: 0 <= j < KEY_BYTES ==>
              r[j] == if at <= j < at + |bytes| then bytes[j - at] else key[j]
  {
    key[..at] + bytes + key[at + |bytes|..]
  }

  function Ones(n: nat): (r: seq<bv8>)
    ensures |r| == n && forall k :: 0 <= k < n ==> r[k] == 0xFF
  {
    seq(n, _ => 0xFF)
  }

  const NO_KEY: Key := ZEROS + ZEROS + ZEROS + ZEROS

  /** oxm2rule: network order to rule order, in place. */
  method Oxm2Rule(dst: array<bv8>, at: nat, oxm: seq<bv8>)
    requires dst.Length == KEY_BYTES && at + |oxm| <= KEY_BYTES
    modifies dst
    ensures dst[..] == Put(old(dst[..]), at, Reversed(oxm))
  {
    var len := |oxm|;
    for i := 0 to len
      invariant forall j :: 0 <= j < KEY_BYTES ==>
                  dst[j] == if at <= j < at + i then oxm[len - 1 - (j - at)] else old(dst[j])
    {
      dst[at + i] := oxm[len - 1 - i];
    }
  }

  /** memset with 0xFF. */
  method SetOnes(dst: array<bv8>, at: nat, n: nat)
    requires dst.Length == KEY_BYTES && at + n <= KEY_BYTES
    modifies dst
    ensures dst[..] == Put(old(dst[..]), at, Ones(n))
  {
    for i := 0 to n
      invariant forall j :: 0 <= j < KEY_BYTES ==>
                  dst[j] == if at <= j < at + i then 0xFF else old(dst[j])
    {
      dst[at + i] := 0xFF;
    }
  }
}
