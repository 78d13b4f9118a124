/**
 * The two adapters that turn predictions into what the annotation viewer
 * draws: `prepareInvoiceData` (one shape per field with a polygon) and
 * `prepareVisionData` (one shape per recognised word).
 */
module Shapes {
  import opened Wrappers
  import opened Predictions

  // ---------------------------------------------------------------------
  // Structured prediction: features.map(...).filter(shape => shape !== null)
  // ---------------------------------------------------------------------

  /** `prediction[feature] && prediction[feature].polygon` is truthy. */
  predicate HasPolygon(prediction: Prediction, feature: string)
  {
    feature in prediction && prediction[feature].polygon.Some?
  }

  /** The `map` callback: the shape of the feature at `index`, or null. */
  function FeatureShape(prediction: Prediction, feature: string, index: nat): (r: Option<Shape>)
  {
    if !HasPolygon(prediction, feature) then None
    else Some(Shape(index + 1, prediction[feature].polygon.value, None))
  }

  /** `.filter(shape => shape !== null)`: the present values, in order. */
  function Present<T(!new)>(xs: seq<Option<T>>): (r: seq<T>)
    ensures |r| <= |xs|
    ensures forall x :: x in r <==> Some(x) in xs
  {
    if xs == [] then []
    else if xs[0].Some? then [xs[0].value] + Present(xs[1..])
    else Present(xs[1..])
  }

  /** The mapped list before filtering. */
  function FeatureShapes(prediction: Prediction, features: seq<string>): (r: seq<Option<Shape>>)
    ensures |r| == |features|
    ensures forall i :: 0 <= i < |r| ==> r[i] == FeatureShape(prediction, features[i], i)
  {
    seq(|features|, i requires 0 <= i < |features| => FeatureShape(prediction, features[i], i))
  }

  /** `prepareInvoiceData(prediction, features, image)`. */
  function PrepareInvoiceData(prediction: Prediction, features: seq<string>, image: string): (data: AnnotationData)
    ensures data.image == image
    ensures |data.shapes| <= |features|
  {
    AnnotationData(image, Present(FeatureShapes(prediction, features)))
  }

  /** Filtering keeps the order of what it keeps: ordered ids stay ordered. */
  lemma {:induction false} PresentKeepsIdOrder(xs: seq<Option<Shape>>)
    requires forall i, j :: 0 <= i < j < |xs| && xs[i].Some? && xs[j].Some? ==> xs[i].value.id < xs[j].value.id
    ensures forall j, k :: 0 <= j < k < |Present(xs)| ==> Present(xs)[j].id < Present(xs)[k].id
  {
    if xs != [] {
      var rest := Present(xs[1..]);
      PresentKeepsIdOrder(xs[1..]);
      if xs[0].Some? {
        var r := Present(xs);
        assert r == [xs[0].value] + rest;
        forall k | 1 <= k < |r| ensures r[0].id < r[k].id {
          assert r[k] == rest[k - 1];
          assert Some(r[k]) in xs[1..];
          var i :| 0 <= i < |xs[1..]| && xs[1..][i] == Some(r[k]);
          assert xs[i + 1] == Some(r[k]);
        }
      }
    }
  }

  /**
   * `prepareInvoiceData` emits exactly the features that are present and
   * have a polygon: each shape is the feature at position `id - 1` with its
   * polygon as coordinates and no text, every such feature has its shape,
   * and ids strictly increase, so no feature appears twice.
   */
  lemma InvoiceShapes(prediction: Prediction, features: seq<string>, image: string)
    ensures var shapes := PrepareInvoiceData(prediction, features, image).shapes;
      forall k :: 0 <= k < |shapes| ==>
        1 <= shapes[k].id <= |features| &&
        HasPolygon(prediction, features[shapes[k].id - 1]) &&
        shapes[k] == Shape(shapes[k].id, prediction[features[shapes[k].id - 1]].polygon.value, None)
    ensures var shapes := PrepareInvoiceData(prediction, features, image).shapes;
      forall i :: 0 <= i < |features| && HasPolygon(prediction, features[i]) ==>
        Shape(i + 1, prediction[features[i]].polygon.value, None) in shapes
    ensures var shapes := PrepareInvoiceData(prediction, features, image).shapes;
      forall j, k :: 0 <= j < k < |shapes| ==> shapes[j].id < shapes[k].id
  {
    var xs := FeatureShapes(prediction, features);
    var shapes := Present(xs);
    assert shapes == PrepareInvoiceData(prediction, features, image).shapes;
    forall k | 0 <= k < |shapes|
      ensures 1 <= shapes[k].id <= |features|
      ensures HasPolygon(prediction, features[shapes[k].id - 1])
      ensures shapes[k] == Shape(shapes[k].id, prediction[features[shapes[k].id - 1]].polygon.value, None)
    {
      assert shapes[k] in shapes;
      var i :| 0 <= i < |xs| && xs[i] == Some(shapes[k]);
      assert xs[i] == FeatureShape(prediction, features[i], i);
    }
    forall i | 0 <= i < |features| && HasPolygon(prediction, features[i])
      ensures Shape(i + 1, prediction[features[i]].polygon.value, None) in shapes
    {
      assert xs[i] == Some(Shape(i + 1, prediction[features[i]].polygon.value, None));
    }
    PresentKeepsIdOrder(xs);
  }

  // ---------------------------------------------------------------------
  // Vision prediction: nested forEach over pages and words, pushing shapes
  // ---------------------------------------------------------------------

  /** The shape pushed for word `wordIndex` of page `pageIndex`. */
  function WordShape(word: Word, pageIndex: nat, wordIndex: nat): Shape
  {
    Shape(pageIndex * 1000 + wordIndex, word.polygon, Some(word.text))
  }

  /** The shapes of the first `n` words of one page, in word order. */
  function PageShapes(page: Page, pageIndex: nat, n: nat): (r: seq<Shape>)
    requires n <= |page.words|
    ensures |r| == n
    ensures forall w :: 0 <= w < n ==> r[w] == WordShape(page.words[w], pageIndex, w)
  {
    seq(n, w requires 0 <= w < n => WordShape(page.words[w], pageIndex, w))
  }

  /** The shapes of all words of all pages, in page-then-word order. */
  function VisionShapes(pages: seq<Page>): seq<Shape>
  {
    if pages == [] then []
    else
      var last := |pages| - 1;
      VisionShapes(pages[..last]) + PageShapes(pages[last], last, |pages[last].words|)
  }

  /** The number of words on all pages. */
  function TotalWords(pages: seq<Page>): nat
  {
    if pages == [] then 0 else TotalWords(pages[..|pages| - 1]) + |pages[|pages| - 1].words|
  }

  /** `prepareVisionData(visionResponse, image)`, with the response reduced to its pages. */
  method PrepareVisionData(pages: seq<Page>, image: string) returns (data: AnnotationData)
    ensures data == AnnotationData(image, VisionShapes(pages))
  {
    var shapes: seq<Shape> := [];
    var p := 0;
    while p < |pages|
      invariant 0 <= p <= |pages|
      invariant shapes == VisionShapes(pages[..p])
    {
      var words := pages[p].words;
      var w := 0;
      while w < |words|
        invariant 0 <= w <= |words|
        invariant shapes == VisionShapes(pages[..p]) + PageShapes(pages[p], p, w)
      {
        shapes := shapes + [WordShape(words[w], p, w)];
        w := w + 1;
      }
      assert pages[..p + 1][..p] == pages[..p];
      p := p + 1;
    }
    assert pages[..p] == pages;
    data := AnnotationData(image, shapes);
  }

  /** One shape per word: the shape count is the word count. */
  lemma {:induction false} VisionShapesCount(pages: seq<Page>)
    ensures |VisionShapes(pages)| == TotalWords(pages)
  {
    if pages != [] {
      VisionShapesCount(pages[..|pages| - 1]);
    }
  }

  /**
   * Word `w` of page `p` becomes the shape at position "words on earlier
   * pages + w", with id `p * 1000 + w`, the word's polygon and its text.
   */
  lemma {:induction false} VisionShapeAt(pages: seq<Page>, p: nat, w: nat)
    requires p < |pages| && w < |pages[p].words|
    ensures TotalWords(pages[..p]) + w < |VisionShapes(pages)|
    ensures VisionShapes(pages)[TotalWords(pages[..p]) + w] == WordShape(pages[p].words[w], p, w)
  {
    var last := |pages| - 1;
    var front := pages[..last];
    VisionShapesCount(front);
    VisionShapesCount(pages[..p]);
    if p < last {
      assert front[..p] == pages[..p];
      VisionShapeAt(front, p, w);
    } else {
      assert front == pages[..p];
    }
  }

  /** With at most 1000 words per page, every id is below 1000 times the page count. */
  lemma {:induction false} VisionIdsBelow(pages: seq<Page>)
    requires forall p :: 0 <= p < |pages| ==> |pages[p].words| <= 1000
    ensures forall k :: 0 <= k < |VisionShapes(pages)| ==> 0 <= VisionShapes(pages)[k].id < |pages| * 1000
  {
    if pages != [] {
      var last := |pages| - 1;
      var front := pages[..last];
      VisionIdsBelow(front);
      var shapes := VisionShapes(pages);
      var tail := PageShapes(pages[last], last, |pages[last].words|);
      assert shapes == VisionShapes(front) + tail;
      forall k | 0 <= k < |shapes| ensures 0 <= shapes[k].id < |pages| * 1000 {
        if k >= |VisionShapes(front)| {
          assert shapes[k] == tail[k - |VisionShapes(front)|];
        } else {
          assert shapes[k] == VisionShapes(front)[k];
        }
      }
    }
  }

  /**
   * Ids strictly increase (so are pairwise distinct) whenever every page
   * but the last has at most 1000 words.
   */
  lemma {:induction false} VisionIdsIncreasing(pages: seq<Page>)
    requires forall p :: 0 <= p < |pages| - 1 ==> |pages[p].words| <= 1000
    ensures forall j, k :: 0 <= j < k < |VisionShapes(pages)| ==> VisionShapes(pages)[j].id < VisionShapes(pages)[k].id
  {
    if pages != [] {
      var last := |pages| - 1;
      var front := pages[..last];
      VisionIdsIncreasing(front);
      VisionIdsBelow(front);
      var before := VisionShapes(front);
      var tail := PageShapes(pages[last], last, |pages[last].words|);
      var shapes := VisionShapes(pages);
      assert shapes == before + tail;
      forall j, k | 0 <= j < k < |shapes| ensures shapes[j].id < shapes[k].id {
        if k < |before| {
          assert shapes[j] == before[j] && shapes[k] == before[k];
        } else if j < |before| {
          assert shapes[j] == before[j] && shapes[k] == tail[k - |before|];
        } else {
          assert shapes[j] == tail[j - |before|] && shapes[k] == tail[k - |before|];
        }
      }
    }
  }

  /**
   * The 1000-word bound is tight: when page `p` has more than 1000 words
   * and page `p + 1` has any word, word 1000 of page `p` and word 0 of page
   * `p + 1` both get the id `(p + 1) * 1000`.
   */
  lemma VisionIdCollision(pages: seq<Page>, p: nat)
    requires p + 1 < |pages| && |pages[p].words| > 1000 && |pages[p + 1].words| > 0
    ensures exists j, k :: 0 <= j < k < |VisionShapes(pages)| && VisionShapes(pages)[j].id == VisionShapes(pages)[k].id
  {
    VisionShapeAt(pages, p, 1000);
    VisionShapeAt(pages, p + 1, 0);
    assert pages[..p + 1][..p] == pages[..p];
    var shapes := VisionShapes(pages);
    var j := TotalWords(pages[..p]) + 1000;
    var k := TotalWords(pages[..p + 1]);
    assert shapes[j].id == (p + 1) * 1000 == shapes[k].id;
  }
}
