/**
 * The pixel loop of the icon clean-up script (`make_transparent`): every
 * near-black RGBA pixel becomes fully transparent black and every other pixel
 * is kept. Opening and saving the image file is not modelled; the pixels are
 * given as the sequence `getdata()` yields.
 */
module RemoveBlackBg {

  /** One 8-bit colour or alpha channel. */
  type Channel = x: int | 0 <= x <= 255

  /** An RGBA pixel, as `convert("RGBA")` makes every pixel. */
  datatype Pixel = Pixel(r: Channel, g: Channel, b: Channel, a: Channel)

  /** Channels strictly below this count as black, allowing for some noise. */
  const Threshold: int := 50

  const Transparent: Pixel := Pixel(0, 0, 0, 0)

  predicate LikelyBlack(p: Pixel)
  {
    p.r < Threshold && p.g < Threshold && p.b < Threshold
  }

  /** The rule applied to one pixel. */
  function Recolour(p: Pixel): (q: Pixel)
    ensures q == Transparent || q == p
    ensures q == Transparent <==> LikelyBlack(p) || p == Transparent
    ensures q.a == 0 || q == p
  {
    if LikelyBlack(p) then Transparent else p
  }

  /** The reference definition of the whole image: each position recoloured on its own. */
  function Recoloured(pixels: seq<Pixel>): (r: seq<Pixel>)
    ensures |r| == |pixels|
    ensures forall i :: 0 <= i < |pixels| ==> r[i] == Recolour(pixels[i])
  {
    seq(|pixels|, i requires 0 <= i < |pixels| => Recolour(pixels[i]))
  }

  /** The `for item in datas` loop building `newData`. */
  method MakeTransparent(datas: seq<Pixel>) returns (newData: seq<Pixel>)
    ensures newData == Recoloured(datas)
  {
    newData := [];
    for i := 0 to |datas|
      invariant |newData| == i
      invariant forall k :: 0 <= k < i ==> newData[k] == Recolour(datas[k])
    {
      var item := datas[i];
      if item.r < 50 && item.g < 50 && item.b < 50 {
        newData := newData + [Pixel(0, 0, 0, 0)];
      } else {
        newData := newData + [item];
      }
    }
  }

  /** Black pixels become transparent whatever their alpha was; the rest come through as they were. */
  lemma RecolouredPositions(pixels: seq<Pixel>, i: nat)
    requires i < |pixels|
    ensures LikelyBlack(pixels[i]) ==> Recoloured(pixels)[i] == Transparent
    ensures !LikelyBlack(pixels[i]) ==> Recoloured(pixels)[i] == pixels[i]
  {
  }

  /** Position `i` of the output depends on position `i` of the input only. */
  lemma Pointwise(a: seq<Pixel>, b: seq<Pixel>, i: nat)
    requires |a| == |b| && i < |a| && a[i] == b[i]
    ensures Recoloured(a)[i] == Recoloured(b)[i]
  {
  }

  /** Running the script on its own output changes nothing. */
  lemma RecolourIdempotent(pixels: seq<Pixel>)
    ensures Recoloured(Recoloured(pixels)) == Recoloured(pixels)
  {
    var once := Recoloured(pixels);
    forall i | 0 <= i < |once| ensures Recolour(once[i]) == once[i] {
      assert LikelyBlack(Transparent);
    }
  }
}
