/**
 * The values the application reads out of the two API responses and hands
 * to the annotation viewer. Only the fields the application touches are
 * modelled; everything else in the JSON documents is left out.
 */
module Predictions {
  import opened Wrappers

  /** A JavaScript value as far as the field cards are concerned. */
  datatype JsValue = Null | Undefined | Str(s: string) | Num(n: real)

  /** JavaScript truthiness: `null`, `undefined`, `""` and `0` are falsy. */
  predicate Truthy(v: JsValue)
  {
    match v
    case Null => false
    case Undefined => false
    case Str(s) => s != ""
    case Num(n) => n != 0.0
  }

  datatype Point = Point(x: real, y: real)

  /** A bounding polygon: an ordered list of points (possibly empty). */
  type Polygon = seq<Point>

  /**
   * One named field of the structured (invoice) prediction. `polygon` is
   * `None` for a null or missing polygon; an empty list is still truthy in
   * JavaScript and is therefore `Some([])`. `language` and `currency` are
   * only read for the `locale` field; `None` stands for `null`.
   */
  datatype Field = Field(value: JsValue, polygon: Option<Polygon>,
                         language: Option<string>, currency: Option<string>)

  /**
   * `document.inference.prediction`: fields by feature name. A name that is
   * missing, or whose field is null, is simply not a key.
   */
  type Prediction = map<string, Field>

  /** One recognised word of the vision (raw text) prediction. */
  datatype Word = Word(text: string, polygon: Polygon)

  /** One page of the vision prediction: `page.prediction.all_words`. */
  datatype Page = Page(words: seq<Word>)

  /** A shape handed to the viewer; `text` is only present on word shapes. */
  datatype Shape = Shape(id: int, coordinates: Polygon, text: Option<string>)

  /** What the viewer shows: the document image and the shapes drawn over it. */
  datatype AnnotationData = AnnotationData(image: string, shapes: seq<Shape>)
}
