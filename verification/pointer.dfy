/** Mapping of a pointer position in window pixels to the normalised device
    coordinates the raycaster expects: x grows left to right from -1 to 1,
    y grows bottom to top from -1 to 1 (the screen's y axis is flipped). */
module Pointer {

  datatype Ndc = Ndc(x: real, y: real)

  /** `onMouseMove`: window size `width` by `height`, pointer at
      (`clientX`, `clientY`) measured from the top-left corner. */
  function ToNdc(clientX: real, clientY: real, width: real, height: real): (p: Ndc)
    requires width > 0.0 && height > 0.0
    ensures 0.0 <= clientX <= width <==> -1.0 <= p.x <= 1.0
    ensures 0.0 <= clientY <= height <==> -1.0 <= p.y <= 1.0
    ensures clientX == 0.0 ==> p.x == -1.0
    ensures clientX == width ==> p.x == 1.0
    ensures clientY == 0.0 ==> p.y == 1.0
    ensures clientY == height ==> p.y == -1.0
  {
    Ndc((clientX / width) * 2.0 - 1.0, -(clientY / height) * 2.0 + 1.0)
  }

  /** The pixel position a normalised coordinate came from. */
  function ToClient(p: Ndc, width: real, height: real): (c: (real, real))
    requires width > 0.0 && height > 0.0
  {
    ((p.x + 1.0) / 2.0 * width, (1.0 - p.y) / 2.0 * height)
  }

  /** Normalising loses nothing: the pixel position is recovered exactly. */
  lemma ToNdcRoundTrip(clientX: real, clientY: real, width: real, height: real)
    requires width > 0.0 && height > 0.0
    ensures ToClient(ToNdc(clientX, clientY, width, height), width, height) == (clientX, clientY)
  {
    var u, v := clientX / width, clientY / height;
    assert u * width == clientX;
    assert v * height == clientY;
    var p := ToNdc(clientX, clientY, width, height);
    assert p == Ndc(u * 2.0 - 1.0, -v * 2.0 + 1.0);
    assert (p.x + 1.0) / 2.0 == u;
    assert (1.0 - p.y) / 2.0 == v;
    var c := ToClient(p, width, height);
    assert c.0 == u * width;
    assert c.1 == v * height;
  }

  /** Every normalised coordinate is hit by exactly one pixel position. */
  lemma ToClientRoundTrip(p: Ndc, width: real, height: real)
    requires width > 0.0 && height > 0.0
    ensures var c := ToClient(p, width, height); ToNdc(c.0, c.1, width, height) == p
  {
  }

  /** Moving the pointer right raises x; moving it down lowers y. */
  lemma ToNdcMonotone(x1: real, y1: real, x2: real, y2: real, width: real, height: real)
    requires width > 0.0 && height > 0.0
    requires x1 <= x2 && y1 <= y2
    ensures ToNdc(x1, y1, width, height).x <= ToNdc(x2, y2, width, height).x
    ensures ToNdc(x1, y1, width, height).y >= ToNdc(x2, y2, width, height).y
    ensures x1 < x2 ==> ToNdc(x1, y1, width, height).x < ToNdc(x2, y2, width, height).x
    ensures y1 < y2 ==> ToNdc(x1, y1, width, height).y > ToNdc(x2, y2, width, height).y
  {
    assert x1 / width <= x2 / width;
    assert y1 / height <= y2 / height;
    if x1 < x2 {
      assert x1 / width < x2 / width;
    }
    if y1 < y2 {
      assert y1 / height < y2 / height;
    }
  }
}
