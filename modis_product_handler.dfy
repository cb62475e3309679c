/**
 * The tool that picks the MODIS products reaching into a polar region and
 * reprojects them: a product is picked when one of its four corner pixels
 * lies at or beyond 60 degrees south (lower corners) or north (upper corners).
 */
module ModisProductHandler {
  import opened GlobalClassifier
  import ModisMosaicer

  type Product = ModisMosaicer.Product

  /** The geo-coding of every product: the geo-position of a pixel position. */
  type GeoCoding = (Product, PixelPos) -> GeoPos

  /** The centres of the four corner pixels, probed in this order. */
  function LowerLeft(p: Product): PixelPos { PixelPos(0.0 + 0.5, (p.sceneHeight - 1) as real + 0.5) }

  function LowerRight(p: Product): PixelPos { PixelPos((p.sceneWidth - 1) as real + 0.5, (p.sceneHeight - 1) as real + 0.5) }

  function UpperLeft(p: Product): PixelPos { PixelPos(0.5, 0.5) }

  function UpperRight(p: Product): PixelPos { PixelPos((p.sceneWidth - 1) as real + 0.5, 0.5) }

  /** Whether the product reaches into a polar region at one of its corners. */
  predicate IsPolar(geo: GeoCoding, p: Product) {
    || geo(p, LowerLeft(p)).lat <= -60.0
    || geo(p, LowerRight(p)).lat <= -60.0
    || geo(p, UpperLeft(p)).lat >= 60.0
    || geo(p, UpperRight(p)).lat >= 60.0
  }

  /** Corner pixels are half a pixel inside the scene's edges. */
  lemma CornersAreCentres(p: Product)
    ensures LowerLeft(p) == PixelPos(0.5, p.sceneHeight as real - 0.5)
    ensures LowerRight(p) == PixelPos(p.sceneWidth as real - 0.5, p.sceneHeight as real - 0.5)
    ensures UpperRight(p) == PixelPos(p.sceneWidth as real - 0.5, 0.5)
  {
  }

  /** The products of the listing that are picked, in listing order. */
  function Selected(geo: GeoCoding, listing: seq<Product>): (r: seq<Product>)
    ensures |r| <= |listing|
  {
    if |listing| == 0 then []
    else
      var last := listing[|listing| - 1];
      Selected(geo, listing[..|listing| - 1]) + (if IsPolar(geo, last) then [last] else [])
  }

  /**
   * Every polar product is picked as often as it is listed, and no other
   * product is picked at all: one entry per listed file, never two.
   */
  lemma {:induction false} SelectedCount(geo: GeoCoding, listing: seq<Product>)
    ensures forall p :: multiset(Selected(geo, listing))[p] == if IsPolar(geo, p) then multiset(listing)[p] else 0
  {
    if |listing| > 0 {
      var front := listing[..|listing| - 1];
      SelectedCount(geo, front);
      assert listing == front + [listing[|listing| - 1]];
    }
  }

  lemma SelectedMembers(geo: GeoCoding, listing: seq<Product>)
    ensures forall p :: p in Selected(geo, listing) <==> p in listing && IsPolar(geo, p)
  {
    SelectedCount(geo, listing);
  }

  /** Picking keeps the listing order: picking from two runs is picking from each in turn. */
  lemma {:induction false} SelectedAppend(geo: GeoCoding, a: seq<Product>, b: seq<Product>)
    ensures Selected(geo, a + b) == Selected(geo, a) + Selected(geo, b)
    decreases |b|
  {
    if |b| > 0 {
      var b' := b[..|b| - 1];
      assert (a + b)[..|a + b| - 1] == a + b';
      SelectedAppend(geo, a, b');
    } else {
      assert a + b == a;
    }
  }

  class ModisProductHandler {
    var products: seq<Product>
    var reprojectedProducts: seq<Product>

    constructor ()
      ensures products == [] && reprojectedProducts == []
    {
      products := [];
      reprojectedProducts := [];
    }

    /**
     * `getProducts`: probes the corners of every listed product in turn and
     * adds the product at the first corner that reaches a polar region.
     */
    method GetProducts(geo: GeoCoding, listing: seq<Product>)
      modifies this
      ensures products == old(products) + Selected(geo, listing)
      ensures reprojectedProducts == old(reprojectedProducts)
    {
      var i := 0;
      while i < |listing|
        invariant 0 <= i <= |listing|
        invariant products == old(products) + Selected(geo, listing[..i])
        invariant reprojectedProducts == old(reprojectedProducts)
      {
        var product := listing[i];
        assert listing[..i + 1][..i] == listing[..i];
        i := i + 1;
        var gp := geo(product, PixelPos(0.0 + 0.5, (product.sceneHeight - 1) as real + 0.5));
        if gp.lat <= -60.0 {
          products := products + [product];
          continue;
        }
        gp := geo(product, PixelPos((product.sceneWidth - 1) as real + 0.5, (product.sceneHeight - 1) as real + 0.5));
        if gp.lat <= -60.0 {
          products := products + [product];
          continue;
        }
        gp := geo(product, PixelPos(0.5, 0.5));
        if gp.lat >= 60.0 {
          products := products + [product];
          continue;
        }
        gp := geo(product, PixelPos((product.sceneWidth - 1) as real + 0.5, 0.5));
        if gp.lat >= 60.0 {
          products := products + [product];
        }
      }
      assert listing[..i] == listing;
    }

    /** `reproject`: one reprojected product per picked product, in the same order. */
    method Reproject(reproject: Product -> Product)
      modifies this
      ensures products == old(products)
      ensures |reprojectedProducts| == |old(reprojectedProducts)| + |products|
      ensures reprojectedProducts[..|old(reprojectedProducts)|] == old(reprojectedProducts)
      ensures forall i :: 0 <= i < |products| ==> reprojectedProducts[|old(reprojectedProducts)| + i] == reproject(products[i])
    {
      var i := 0;
      while i < |products|
        invariant 0 <= i <= |products|
        invariant products == old(products)
        invariant |reprojectedProducts| == |old(reprojectedProducts)| + i
        invariant reprojectedProducts[..|old(reprojectedProducts)|] == old(reprojectedProducts)
        invariant forall k :: 0 <= k < i ==> reprojectedProducts[|old(reprojectedProducts)| + k] == reproject(products[k])
      {
        reprojectedProducts := reprojectedProducts + [reproject(products[i])];
        i := i + 1;
      }
    }
  }
}
