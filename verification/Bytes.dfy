/** Byte strings and big-endian numbers. */
module Bytes {

  type byte = x: int | 0 <= x < 256

  function Pow256(n: nat): nat {
    if n == 0 then 1 else 256 * Pow256(n - 1)
  }

  /** The number that a big-endian byte string stands for. */
  function ValueOf(bytes: seq<byte>): nat {
    if bytes == [] then 0 else 256 * ValueOf(bytes[..|bytes| - 1]) + bytes[|bytes| - 1]
  }

  /** The big-endian byte string of a given width; higher digits are cut off. */
  function BigEndian(value: nat, width: nat): (bytes: seq<byte>)
    ensures |bytes| == width
  {
    if width == 0 then [] else BigEndian(value / 256, width - 1) + [value % 256]
  }

  lemma {:induction false} ValueOfBigEndian(value: nat, width: nat)
    requires value < Pow256(width)
    ensures ValueOf(BigEndian(value, width)) == value
  {
    if width > 0 {
      ValueOfBigEndian(value / 256, width - 1);
      var bytes := BigEndian(value, width);
      assert bytes[..|bytes| - 1] == BigEndian(value / 256, width - 1);
    }
  }

  lemma {:induction false} BigEndianOfValue(bytes: seq<byte>)
    ensures ValueOf(bytes) < Pow256(|bytes|)
    ensures BigEndian(ValueOf(bytes), |bytes|) == bytes
  {
    if bytes != [] {
      var init, last := bytes[..|bytes| - 1], bytes[|bytes| - 1];
      BigEndianOfValue(init);
      assert ValueOf(bytes) / 256 == ValueOf(init) && ValueOf(bytes) % 256 == last;
      assert bytes == init + [last];
    }
  }

  lemma BigEndianInjective(a: nat, b: nat, width: nat)
    requires a < Pow256(width) && b < Pow256(width) && BigEndian(a, width) == BigEndian(b, width)
    ensures a == b
  {
    ValueOfBigEndian(a, width);
    ValueOfBigEndian(b, width);
  }

  function Zeros(n: nat): (bytes: seq<byte>)
    ensures |bytes| == n
  {
    seq(n, _ => 0)
  }
}
