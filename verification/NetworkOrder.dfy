/** Byte strings of messages, and the sixteen-bit numbers in them. */
module NetworkOrder {
  import Md5Spec

  type Byte = Md5Spec.Byte

  /** ntohs of the two bytes at i. */
  function Number(s: seq<Byte>, i: nat): (n: nat)
    requires i + 2 <= |s|
    ensures n < 0x10000
  {
    (s[i] as nat) * 256 + s[i + 1] as nat
  }

  /** htons. */
  function Network(n: nat): (r: seq<Byte>)
    requires n < 0x10000
    ensures |r| == 2 && Number(r, 0) == n
  {
    [n / 256, n % 256]
  }

  function ByteValues(s: seq<bv8>): (r: seq<Byte>)
    ensures |r| == |s|
  {
    seq(|s|, k requires 0 <= k < |s| => s[k] as nat)
  }
}
