/** Binarisation of the canvas image before recognition: each RGBA pixel's
    mean intensity is stretched about mid-grey by the contrast factor and
    compared with a threshold; the three colour bytes become white (255) or
    black (0), the alpha byte is left as it was. Arithmetic is exact: the
    page's constants 1.15 and 160 are rationals here. */
module Conditioner {

  /** One byte of the canvas's clamped RGBA buffer. */
  newtype byte = x: int | 0 <= x < 256

  const Contrast: real := 1.15
  const Threshold: real := 160.0
  const MidGrey: real := 128.0

  /** The grey value of a pixel after the contrast stretch. */
  function Stretched(r: byte, g: byte, b: byte): real {
    ((r as int + g as int + b as int) as real / 3.0 - MidGrey) * Contrast + MidGrey
  }

  /** The level a pixel's colour bytes are set to. */
  function Level(r: byte, g: byte, b: byte): (v: byte)
    ensures v == 0 || v == 255
  {
    if Stretched(r, g, b) > Threshold then 255 else 0
  }

  /** The threshold, stated on the integers: a pixel turns white exactly when its
      channel sum is at least 468, that is, when its mean is at least 156. */
  lemma LevelIsSumThreshold(r: byte, g: byte, b: byte)
    ensures Level(r, g, b) == 255 <==> r as int + g as int + b as int >= 468
  {
    var s := r as int + g as int + b as int;
    if s >= 468 {
      assert s as real >= 468.0;
    } else {
      assert s <= 467;
      assert s as real <= 467.0;
    }
  }

  /** The binarised image of an RGBA buffer, pixel by pixel. */
  function Binarized(s: seq<byte>): (t: seq<byte>)
    requires |s| % 4 == 0
    ensures |t| == |s|
    decreases |s|
  {
    if |s| == 0 then []
    else
      var v := Level(s[0], s[1], s[2]);
      [v, v, v, s[3]] + Binarized(s[4..])
  }

  /** Binarisation works on each pixel separately. */
  lemma {:induction false} BinarizedAppend(x: seq<byte>, y: seq<byte>)
    requires |x| % 4 == 0 && |y| % 4 == 0
    ensures Binarized(x + y) == Binarized(x) + Binarized(y)
    decreases |x|
  {
    if |x| == 0 {
      assert x + y == y;
    } else {
      var xy := x + y;
      assert xy[0] == x[0] && xy[1] == x[1] && xy[2] == x[2] && xy[3] == x[3];
      assert xy[4..] == x[4..] + y;
      var v := Level(x[0], x[1], x[2]);
      var pixel := [v, v, v, x[3]];
      assert Binarized(x) == pixel + Binarized(x[4..]);
      assert Binarized(xy) == pixel + Binarized(x[4..] + y);
      BinarizedAppend(x[4..], y);
      assert pixel + (Binarized(x[4..]) + Binarized(y)) == (pixel + Binarized(x[4..])) + Binarized(y);
    }
  }

  /** Byte `j` of pixel `p` of the binarised buffer: the alpha byte (`j == 3`)
      of the input, otherwise the level of the input pixel. */
  lemma {:induction false} BinarizedAt(s: seq<byte>, p: nat, j: nat)
    requires |s| % 4 == 0 && j < 4 && 4 * p + 4 <= |s|
    ensures Binarized(s)[4 * p + j] ==
      if j == 3 then s[4 * p + 3] else Level(s[4 * p], s[4 * p + 1], s[4 * p + 2])
    decreases p
  {
    var v := Level(s[0], s[1], s[2]);
    assert Binarized(s) == [v, v, v, s[3]] + Binarized(s[4..]);
    if p > 0 {
      var rest := s[4..];
      BinarizedAt(rest, p - 1, j);
      assert rest[4 * (p - 1)] == s[4 * p] && rest[4 * (p - 1) + 1] == s[4 * p + 1];
      assert rest[4 * (p - 1) + 2] == s[4 * p + 2] && rest[4 * (p - 1) + 3] == s[4 * p + 3];
    }
  }

  /** Every byte offset of a buffer of whole pixels lies in a whole pixel. */
  lemma PixelOf(n: nat, k: nat) returns (p: nat, j: nat)
    requires n % 4 == 0 && k < n
    ensures j < 4 && 4 * p + j == k && 4 * p + 4 <= n
  {
    p, j := k / 4, k % 4;
    assert n == 4 * (n / 4);
  }

  /** The RGBA buffer of `n` pixels is a buffer of whole pixels. */
  lemma WholeBuffer(n: nat)
    ensures (4 * n) % 4 == 0
  {
  }

  /** A pixel that starts inside a buffer of whole pixels ends inside it. */
  lemma WholePixel(n: nat, p: nat)
    requires n % 4 == 0 && 4 * p < n
    ensures 4 * p + 4 <= n
  {
    assert n == 4 * (n / 4);
  }

  /** The four bytes of pixel `p` of the binarised buffer. */
  lemma BinarizedPixel(s: seq<byte>, p: nat)
    requires |s| % 4 == 0 && 4 * p + 4 <= |s|
    ensures var t, i := Binarized(s), 4 * p;
      var v := Level(s[i], s[i + 1], s[i + 2]);
      t[i] == v && t[i + 1] == v && t[i + 2] == v && t[i + 3] == s[i + 3]
  {
    BinarizedAt(s, p, 0);
    BinarizedAt(s, p, 1);
    BinarizedAt(s, p, 2);
    BinarizedAt(s, p, 3);
  }

  /** Every pixel of a binarised buffer is black or white, its three colour bytes
      are equal and white exactly when the input pixel's stretched grey exceeds
      the threshold, and its alpha byte is the input's. */
  lemma BinarizedPixels(s: seq<byte>, p: nat)
    requires |s| % 4 == 0 && 4 * p + 4 <= |s|
    ensures var t, i := Binarized(s), 4 * p;
      && t[i] == t[i + 1] == t[i + 2]
      && (t[i] == 0 || t[i] == 255)
      && (t[i] == 255 <==> Stretched(s[i], s[i + 1], s[i + 2]) > Threshold)
      && (t[i] == 255 <==> s[i] as int + s[i + 1] as int + s[i + 2] as int >= 468)
      && t[i + 3] == s[i + 3]
  {
    BinarizedPixel(s, p);
    LevelIsSumThreshold(s[4 * p], s[4 * p + 1], s[4 * p + 2]);
  }

  /** A black or white grey pixel keeps its level. */
  lemma LevelOfLevel(v: byte)
    requires v == 0 || v == 255
    ensures Level(v, v, v) == v
  {
    LevelIsSumThreshold(v, v, v);
  }

  /** Binarising a binarised buffer changes nothing: a black pixel sums to 0 and
      stays black, a white one sums to 765 and stays white. */
  lemma BinarizedIdempotent(s: seq<byte>)
    requires |s| % 4 == 0
    ensures Binarized(Binarized(s)) == Binarized(s)
  {
    var t := Binarized(s);
    BinarizedBytesFixed(s, t);
    assert Binarized(t) == t;
  }

  /** Byte by byte, binarising the binarised buffer `t` of `s` keeps it. */
  lemma BinarizedBytesFixed(s: seq<byte>, t: seq<byte>)
    requires |s| % 4 == 0 && t == Binarized(s)
    ensures |Binarized(t)| == |t| && forall k | 0 <= k < |t| :: Binarized(t)[k] == t[k]
  {
    forall k | 0 <= k < |t|
      ensures Binarized(t)[k] == t[k]
    {
      var p, j := PixelOf(|s|, k);
      BinarizedPixel(s, p);
      BinarizedByteFixed(t, p, j);
    }
  }

  /** A pixel whose colour bytes are equal and black or white is left as it is. */
  lemma BinarizedByteFixed(t: seq<byte>, p: nat, j: nat)
    requires |t| % 4 == 0 && j < 4 && 4 * p + 4 <= |t|
    requires t[4 * p] == t[4 * p + 1] == t[4 * p + 2] && (t[4 * p] == 0 || t[4 * p] == 255)
    ensures Binarized(t)[4 * p + j] == t[4 * p + j]
  {
    BinarizedAt(t, p, j);
    LevelOfLevel(t[4 * p]);
  }

  /** One step of the loop: the colour bytes of the pixel at offset `i` are set
      to its level, and every other byte is kept. */
  method SetPixel(d: array<byte>, i: nat)
    requires i + 4 <= d.Length
    modifies d
    ensures var v := Level(old(d[i]), old(d[i + 1]), old(d[i + 2]));
      d[i] == v && d[i + 1] == v && d[i + 2] == v
    ensures forall k | 0 <= k < d.Length && !(i <= k < i + 3) :: d[k] == old(d[k])
  {
    var v := Level(d[i], d[i + 1], d[i + 2]);
    d[i], d[i + 1], d[i + 2] := v, v, v;
  }

  /** The page's loop over the canvas buffer, four bytes at a time. */
  method BinarizeInPlace(d: array<byte>)
    requires d.Length % 4 == 0
    modifies d
    ensures d[..] == Binarized(old(d[..]))
  {
    ghost var input := d[..];
    ghost var output := Binarized(input);
    var i := 0;
    ghost var p := 0;
    while i < d.Length
      invariant i == 4 * p <= d.Length
      invariant forall k | 0 <= k < i :: d[k] == output[k]
      invariant forall k | i <= k < d.Length :: d[k] == input[k]
    {
      WholePixel(d.Length, p);
      BinarizedPixel(input, p);
      SetPixel(d, i);
      i, p := i + 4, p + 1;
    }
    assert forall k | 0 <= k < d.Length :: d[..][k] == output[k];
  }
}
