/**
  The `/check` handler of image.js: is there an uploaded image, can its size
  be read, and does its width-to-height ratio lie between 1.3 and 2.5
  inclusive. The metadata read is an input; the ratio bounds are tested on
  integers and proved equal to the bounds on the exact quotient.
*/
module ImageCheck {

  /** What the request carries in `req.files`. */
  datatype Upload = NoFiles | NoImageField | Image(metadata: Metadata)

  /**
    What reading the image metadata gives: the width and height in pixels (0
    standing also for an absent value), or a failure of the read.
  */
  datatype Metadata = Dimensions(width: nat, height: nat) | ReadFailed

  /** The JSON reply: `{ ok: false, message }` with a status, or `{ ok: true, width, height, valid }`. */
  datatype Reply = Rejected(status: int, message: string) | Measured(width: nat, height: nat, valid: bool)

  const NoImageMessage := "Aucune image fournie (form-data: image)"
  const NoSizeMessage := "Impossible de lire la taille de l'image"
  const AnalysisErrorMessage := "Erreur lors de l'analyse de l'image"

  /** The HTTP status of a reply; a measured image is answered with the default 200. */
  function Status(r: Reply): int {
    if r.Rejected? then r.status else 200
  }

  /** The reply's `ok` field. */
  predicate Ok(r: Reply) {
    r.Measured?
  }

  /** For a positive divisor, a bound on the quotient is the bound times the divisor on the dividend. */
  lemma QuotientBound(w: real, h: real, c: real)
    requires h > 0.0
    ensures c <= w / h <==> c * h <= w
    ensures w / h <= c <==> w <= c * h
  {
    var q := w / h;
    assert q * h == w;
    if c <= q {
      assert c * h <= q * h;
    }
    if c * h <= w {
      assert (q - c) * h >= 0.0;
    }
    if q <= c {
      assert q * h <= c * h;
    }
    if w <= c * h {
      assert (c - q) * h >= 0.0;
    }
  }

  /** The integer inequalities are exactly the bounds on the quotient, both inclusive. */
  lemma RatioBoundsExact(width: nat, height: nat)
    requires height > 0
    ensures (13 * height <= 10 * width && 2 * width <= 5 * height) <==> 1.3 <= (width as real) / (height as real) <= 2.5
  {
    var w, h := width as real, height as real;
    QuotientBound(w, h, 1.3);
    QuotientBound(w, h, 2.5);
    assert (13 * height) as real == 13.0 * h && (10 * width) as real == 10.0 * w;
    assert (2 * width) as real == 2.0 * w && (5 * height) as real == 5.0 * h;
  }

  /**
    `ratio >= 1.3 && ratio <= 2.5` (image.js line 27), with both sides
    multiplied out so that no division is needed. Only a landscape image can
    pass.
  */
  predicate InRatioBounds(width: nat, height: nat): (b: bool)
    ensures height > 0 ==> (b <==> 1.3 <= (width as real) / (height as real) <= 2.5)
    ensures b && height > 0 ==> height < width
  {
    var b := 13 * height <= 10 * width && 2 * width <= 5 * height;
    if height > 0 then
      RatioBoundsExact(width, height);
      b
    else
      b
  }

  /**
    The handler (image.js lines 9-35): no files or no `image` field is a
    400; a failed metadata read is a 500; a missing or zero width or height
    is a 400; otherwise `ok: true` with the width and height echoed and
    `valid` telling whether the ratio is within bounds.
  */
  function Check(u: Upload): (r: Reply)
    ensures u.NoFiles? || u.NoImageField? ==> r == Rejected(400, NoImageMessage)
    ensures u.Image? && u.metadata.ReadFailed? ==> r == Rejected(500, AnalysisErrorMessage)
    ensures u.Image? && u.metadata.Dimensions? && (u.metadata.width == 0 || u.metadata.height == 0) ==>
      r == Rejected(400, NoSizeMessage)
    ensures r.Measured? <==> u.Image? && u.metadata.Dimensions? && u.metadata.width > 0 && u.metadata.height > 0
    ensures r.Measured? ==> r.width == u.metadata.width && r.height == u.metadata.height
    ensures r.Measured? ==> (r.valid <==> 1.3 <= (r.width as real) / (r.height as real) <= 2.5)
    ensures r.Measured? && r.width <= r.height ==> !r.valid
    ensures Ok(r) <==> Status(r) == 200
    ensures !Ok(r) ==> Status(r) == 400 || Status(r) == 500
  {
    match u
    case NoFiles => Rejected(400, NoImageMessage)
    case NoImageField => Rejected(400, NoImageMessage)
    case Image(ReadFailed) => Rejected(500, AnalysisErrorMessage)
    case Image(Dimensions(width, height)) =>
      if width == 0 || height == 0 then
        Rejected(400, NoSizeMessage)
      else
        Measured(width, height, InRatioBounds(width, height))
  }
}
