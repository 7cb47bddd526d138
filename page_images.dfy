/**
 * Image extraction of one page (src/mastra/tools/pdf-ingest.ts:114-147): every
 * image-painting operation of the page's operator list yields one image,
 * tagged with an id made of the page number and the image object's name.
 */
module PageImages {

  /** The operations of a page's operator list that matter here. */
  datatype PaintOp =
    | PaintImageXObject(name: string)
    | PaintXObject(name: string)
    | OtherOp

  /** A resolved image object: its size and its RGBA samples. */
  datatype RawImage = RawImage(width: nat, height: nat, rgba: seq<bv8>)

  /** An extracted image; `pixels` holds the raw RGBA samples (the PNG encoding of them is not modelled). */
  datatype ExtractedImage = ExtractedImage(id: string, width: nat, height: nat, pixels: seq<bv8>)

  predicate IsDigit(c: char)
  {
    '0' <= c <= '9'
  }

  function DigitChar(d: nat): (c: char)
    requires d < 10
    ensures IsDigit(c)
  {
    ('0' as int + d) as char
  }

  /** The decimal numeral of `n`, as a template literal renders an integer. */
  function DecimalString(n: nat): (s: string)
    ensures s != "" && forall k :: 0 <= k < |s| ==> IsDigit(s[k])
  {
    if n < 10 then [DigitChar(n)] else DecimalString(n / 10) + [DigitChar(n % 10)]
  }

  /** The number a numeral denotes. */
  function DecimalValue(s: string): nat
    requires forall k :: 0 <= k < |s| ==> IsDigit(s[k])
  {
    if s == "" then 0 else DecimalValue(s[..|s| - 1]) * 10 + DigitValue(s[|s| - 1])
  }

  function DigitValue(c: char): nat
    requires IsDigit(c)
  {
    c as int - '0' as int
  }

  lemma {:induction false} DecimalRoundTrip(n: nat)
    ensures DecimalValue(DecimalString(n)) == n
  {
    if n >= 10 {
      var s := DecimalString(n);
      assert s[..|s| - 1] == DecimalString(n / 10);
      DecimalRoundTrip(n / 10);
    }
  }

  /** The id of an image painted on page `page` from the object named `name`. */
  function ImageId(page: nat, name: string): string
  {
    DecimalString(page) + "_" + name
  }

  /**
   * Distinct (page, name) pairs get distinct ids: the page numeral holds no
   * underscore, so the first underscore of an id ends the page number.
   */
  lemma ImageIdInjective(p1: nat, n1: string, p2: nat, n2: string)
    requires ImageId(p1, n1) == ImageId(p2, n2)
    ensures p1 == p2 && n1 == n2
  {
    var d1, d2 := DecimalString(p1), DecimalString(p2);
    var id := ImageId(p1, n1);
    // the first underscore of the id sits right after either numeral
    assert id == d1 + "_" + n1 == d2 + "_" + n2;
    assert id[|d1|] == '_' && id[|d2|] == '_';
    assert forall k :: 0 <= k < |d1| ==> IsDigit(id[k]);
    assert forall k :: 0 <= k < |d2| ==> IsDigit(id[k]);
    assert |d1| == |d2|;
    assert d1 == id[..|d1|] == d2;
    DecimalRoundTrip(p1);
    DecimalRoundTrip(p2);
    assert n1 == id[|d1| + 1..] == n2;
  }

  /** The names of the image-painting operations, in operator-list order. */
  function PaintedNames(ops: seq<PaintOp>): seq<string>
  {
    if ops == [] then []
    else
      var rest := PaintedNames(ops[..|ops| - 1]);
      match ops[|ops| - 1]
      case PaintImageXObject(name) => rest + [name]
      case PaintXObject(name) => rest + [name]
      case OtherOp => rest
  }

  /** The image extracted for one painted object. */
  function ImageOf(page: nat, name: string, img: RawImage): ExtractedImage
  {
    ExtractedImage(ImageId(page, name), img.width, img.height, img.rgba)
  }

  /**
   * The image loop of one page: one image per painted object, in order, each
   * with the id of its page and name and the size and samples its object
   * resolves to.
   */
  method ExtractPageImages(page: nat, ops: seq<PaintOp>, resolve: string -> RawImage)
    returns (images: seq<ExtractedImage>)
    ensures |images| == |PaintedNames(ops)|
    ensures forall k :: 0 <= k < |images| ==>
      images[k] == ImageOf(page, PaintedNames(ops)[k], resolve(PaintedNames(ops)[k]))
  {
    images := [];
    for i := 0 to |ops|
      invariant |images| == |PaintedNames(ops[..i])|
      invariant forall k :: 0 <= k < |images| ==>
        images[k] == ImageOf(page, PaintedNames(ops[..i])[k], resolve(PaintedNames(ops[..i])[k]))
    {
      assert ops[..i + 1][..i] == ops[..i];
      match ops[i]
      case PaintImageXObject(name) =>
        var img := resolve(name);
        images := images + [ExtractedImage(ImageId(page, name), img.width, img.height, img.rgba)];
      case PaintXObject(name) =>
        var img := resolve(name);
        images := images + [ExtractedImage(ImageId(page, name), img.width, img.height, img.rgba)];
      case OtherOp =>
    }
    assert ops[..|ops|] == ops;
  }

  /** Images of two different pages never share an id. */
  lemma DistinctPagesDistinctIds(p1: nat, p2: nat, ops1: seq<PaintOp>, ops2: seq<PaintOp>, k1: nat, k2: nat)
    requires p1 != p2
    requires k1 < |PaintedNames(ops1)| && k2 < |PaintedNames(ops2)|
    ensures ImageId(p1, PaintedNames(ops1)[k1]) != ImageId(p2, PaintedNames(ops2)[k2])
  {
    if ImageId(p1, PaintedNames(ops1)[k1]) == ImageId(p2, PaintedNames(ops2)[k2]) {
      ImageIdInjective(p1, PaintedNames(ops1)[k1], p2, PaintedNames(ops2)[k2]);
    }
  }

  /**
   * Ids are not unique within a page: an object painted twice on the same page
   * yields two images with the same id.
   */
  lemma RepeatedPaintRepeatsId(page: nat, name: string)
    ensures var names := PaintedNames([PaintImageXObject(name), PaintImageXObject(name)]);
            |names| == 2 && ImageId(page, names[0]) == ImageId(page, names[1])
  {
    var ops := [PaintImageXObject(name), PaintImageXObject(name)];
    assert ops[..1] == [PaintImageXObject(name)];
    assert ops[..1][..0] == [];
    assert PaintedNames(ops[..1]) == [name];
  }
}
