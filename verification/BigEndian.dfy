/** Numbers as the page codecs store them, most significant byte first (storage/codec/common.rs). */
module BigEndian {
  import opened Prelude

  function Pow256(w: nat): nat {
    if w == 0 then 1 else 256 * Pow256(w - 1)
  }

  /** The number in w bytes, most significant first. */
  function Be(n: nat, w: nat): (bytes: seq<byte>)
    ensures |bytes| == w
  {
    if w == 0 then [] else Be(n / 256, w - 1) + [n % 256]
  }

  function FromBe(bytes: seq<byte>): nat {
    if bytes == [] then 0 else FromBe(bytes[..|bytes| - 1]) * 256 + bytes[|bytes| - 1]
  }

  lemma {:induction false} BeRoundTrip(n: nat, w: nat)
    requires n < Pow256(w)
    ensures FromBe(Be(n, w)) == n
  {
    if w > 0 {
      BeRoundTrip(n / 256, w - 1);
      assert Be(n, w)[..w - 1] == Be(n / 256, w - 1);
    }
  }

  lemma Widths()
    ensures Pow256(2) == 0x1_0000 && Pow256(4) == 0x1_0000_0000 && Pow256(8) == 0x1_0000_0000_0000_0000
  {
    assert Pow256(4) == 256 * 256 * Pow256(2);
    assert Pow256(8) == 256 * 256 * 256 * 256 * Pow256(4) by {
      assert Pow256(6) == 256 * 256 * Pow256(4);
    }
  }

  lemma BeStep(m: nat, x: byte, w: nat)
    ensures Be(256 * m + x, w + 1) == Be(m, w) + [x]
  {
    assert (256 * m + x) / 256 == m && (256 * m + x) % 256 == x;
  }

  /** Two bytes and four, the most significant first. */
  lemma BeBytes(a: byte, b: byte, c: byte, d: byte)
    ensures Be(256 * c + d, 2) == [c, d]
    ensures Be(256 * (256 * (256 * a + b) + c) + d, 4) == [a, b, c, d]
  {
    BeStep(c, d, 1);
    BeStep(0, c, 0);
    assert Be(c, 1) == [c];
    BeStep(256 * (256 * a + b) + c, d, 3);
    BeStep(256 * a + b, c, 2);
    BeStep(a, b, 1);
    BeStep(0, a, 0);
    assert Be(a, 1) == [a];
  }
}
