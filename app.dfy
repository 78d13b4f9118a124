/**
 * The field cards and their inline editor: what each card shows, the edit
 * session state (`editIndex`, `editedText`, `annotationData` and the invoice
 * prediction) and the handlers that change it.
 */
module App {
  import opened Wrappers
  import opened JsStrings
  import opened Predictions
  import opened Locale
  import opened Shapes

  /** The one feature whose card shows, and saves, language and currency. */
  const LocaleFeature := "locale"
  const NotAvailable := "N/A"

  /** How a template string shows a language or currency: `null` reads "null". */
  function Interpolate(v: Option<string>): string
  {
    match v
    case None => "null"
    case Some(s) => s
  }

  /** What a card shows when it is not being edited. */
  function FieldDisplay(prediction: Prediction, feature: string): (v: JsValue)
    ensures v == Null <==> feature !in prediction
    ensures feature in prediction && feature != LocaleFeature ==>
      Truthy(v) && (Truthy(prediction[feature].value) ==> v == prediction[feature].value)
    ensures feature in prediction && feature == LocaleFeature ==> v.Str?
  {
    if feature !in prediction then Null
    else if feature == LocaleFeature then
      Str(FormatLocale(Interpolate(prediction[feature].language), Interpolate(prediction[feature].currency)))
    else if Truthy(prediction[feature].value) then prediction[feature].value
    else Str(NotAvailable)
  }

  /**
   * The locale card's text parses back to what it shows, as long as neither
   * half contains `", "`.
   */
  lemma LocaleDisplayParses(prediction: Prediction)
    requires LocaleFeature in prediction
    ensures var f := prediction[LocaleFeature];
      var language := Interpolate(f.language);
      var currency := Interpolate(f.currency);
      FieldDisplay(prediction, LocaleFeature).Str? &&
      ((ParseLocale(FieldDisplay(prediction, LocaleFeature).s) == Ok((language, currency))) <==>
       (!Contains(language, Separator) && !Contains(currency, Separator)))
  {
    var f := prediction[LocaleFeature];
    ParseFormatLocale(Interpolate(f.language), Interpolate(f.currency));
  }

  /** Why saving throws. */
  datatype SaveError =
    | MissingField                       // the edited feature's field is null: setting a property of it throws
    | LocaleNotParsed(reason: ParseError)

  /**
   * The update `handleSave` applies to the prediction: the edited text
   * becomes the field's `value`, or, for `locale`, is parsed into its
   * language and currency.
   */
  function SaveEdit(prediction: Prediction, feature: string, text: JsValue): (r: Result<Prediction, SaveError>)
    ensures r.Err? <==>
      (feature == LocaleFeature && !(text.Str? && Contains(text.s, Separator))) || feature !in prediction
    ensures r.Ok? ==> r.value.Keys == prediction.Keys
    ensures r.Ok? ==> forall g :: g in prediction && g != feature ==> r.value[g] == prediction[g]
    ensures r.Ok? ==> r.value[feature].polygon == prediction[feature].polygon
    ensures r.Ok? && feature != LocaleFeature ==> r.value[feature] == prediction[feature].(value := text)
    ensures r.Ok? && feature == LocaleFeature ==>
      r.value[feature].value == prediction[feature].value &&
      r.value[feature].language == Some(ParseLocale(text.s).value.0) &&
      r.value[feature].currency == Some(ParseLocale(text.s).value.1)
  {
    if feature == LocaleFeature then
      // The right-hand sides are evaluated before the assignment reaches the field.
      if !text.Str? then Err(LocaleNotParsed(NotAString))
      else match ParseLocale(text.s)
        case Err(e) => Err(LocaleNotParsed(e))
        case Ok(parsed) =>
          if feature !in prediction then Err(MissingField)
          else Ok(prediction[feature := prediction[feature].(language := Some(parsed.0), currency := Some(parsed.1))])
    else if feature !in prediction then Err(MissingField)
    else Ok(prediction[feature := prediction[feature].(value := text)])
  }

  /**
   * After a save the card shows what was saved: the text itself (or "N/A"
   * when it is falsy) for an ordinary field, and for `locale` the very text
   * that was saved, when it has the display form and neither its language
   * nor its currency contains `", "`.
   */
  lemma SaveThenDisplay(prediction: Prediction, feature: string, text: JsValue)
    requires SaveEdit(prediction, feature, text).Ok?
    ensures var saved := SaveEdit(prediction, feature, text).value;
      feature != LocaleFeature ==>
        FieldDisplay(saved, feature) == if Truthy(text) then text else Str(NotAvailable)
    ensures var saved := SaveEdit(prediction, feature, text).value;
      forall language, currency ::
        feature == LocaleFeature && text == Str(FormatLocale(language, currency)) &&
        !Contains(language, Separator) && !Contains(currency, Separator) ==>
          FieldDisplay(saved, feature) == text
  {
    forall language, currency |
      feature == LocaleFeature && text == Str(FormatLocale(language, currency)) &&
      !Contains(language, Separator) && !Contains(currency, Separator)
      ensures FieldDisplay(SaveEdit(prediction, feature, text).value, feature) == text
    {
      ParseFormatLocale(language, currency);
    }
  }

  /**
   * Saving never changes which features are present nor any polygon, so the
   * invoice overlay is the same whether it is computed from the prediction
   * before or after the save.
   */
  lemma SaveKeepsInvoiceShapes(prediction: Prediction, feature: string, text: JsValue,
                               features: seq<string>, image: string)
    requires SaveEdit(prediction, feature, text).Ok?
    ensures PrepareInvoiceData(SaveEdit(prediction, feature, text).value, features, image)
         == PrepareInvoiceData(prediction, features, image)
  {
    var saved := SaveEdit(prediction, feature, text).value;
    forall g ensures HasPolygon(saved, g) == HasPolygon(prediction, g)
      && (HasPolygon(prediction, g) ==> saved[g].polygon == prediction[g].polygon)
    {
    }
    assert FeatureShapes(saved, features) == FeatureShapes(prediction, features);
  }

  /** The text `join` uses for a selected shape: `undefined` joins as "". */
  function JoinText(shape: Shape): string
  {
    match shape.text
    case None => ""
    case Some(t) => t
  }

  /** `selectedShapes.map(shape => shape.text).join(' ')`. */
  function MultiSelectText(shapes: seq<Shape>): (t: string)
  {
    Join(seq(|shapes|, i requires 0 <= i < |shapes| => JoinText(shapes[i])), " ")
  }

  /**
   * The candidate text of a non-empty multi-selection splits back on single
   * spaces into the selected texts, in selection order, when none of them
   * contains a space.
   */
  lemma MultiSelectSplits(shapes: seq<Shape>)
    requires shapes != []
    requires forall i :: 0 <= i < |shapes| ==> ' ' !in JoinText(shapes[i])
    ensures Split(MultiSelectText(shapes), " ") == seq(|shapes|, i requires 0 <= i < |shapes| => JoinText(shapes[i]))
  {
    SplitJoin(seq(|shapes|, i requires 0 <= i < |shapes| => JoinText(shapes[i])), ' ');
  }

  lemma MultiSelectExample(a: Shape, b: Shape, c: Shape)
    requires a.text == Some("Invoice") && b.text == Some("#") && c.text == Some("1234")
    ensures MultiSelectText([a, b, c]) == "Invoice # 1234"
  {
    var texts := seq(3, i requires 0 <= i < 3 => JoinText([a, b, c][i]));
    assert texts == ["Invoice", "#", "1234"];
    assert texts[1..] == ["#", "1234"] && texts[1..][1..] == ["1234"];
    assert Join(texts[1..][1..], " ") == "1234";
    assert Join(texts[1..], " ") == "# 1234";
  }

  /** `selectedShapes.text` for one clicked shape: `undefined` on a shape without text. */
  function ClickedText(shape: Shape): (v: JsValue)
    ensures v.Str? <==> shape.text.Some?
    ensures v.Str? ==> Some(v.s) == shape.text
    ensures shape.text.None? ==> v == Undefined
    ensures v != Null
  {
    match shape.text
    case None => Undefined
    case Some(t) => Str(t)
  }

  /** The state of `App` that the cards and their editor work on. */
  class EditSession {
    /** `features`: the card order, as the structured prediction lists it. */
    var features: seq<string>
    /** `invoicePrediction.document.inference.prediction`. */
    var prediction: Prediction
    /** `visionPrediction`: the word shapes, when the vision call succeeded. */
    var visionData: Option<AnnotationData>
    /** The uploaded document as a data URL, treated as opaque. */
    var image: string
    /** `annotationData`: what the viewer shows. */
    var annotationData: Option<AnnotationData>
    /** `editIndex`: the one card in edit mode, if any. */
    var editIndex: Option<int>
    /** `editedText`: the candidate replacement text. */
    var editedText: JsValue

    /**
     * At most one card is edited (a single index, and a real one), and the
     * viewer shows either the invoice shapes of the current prediction or
     * the word shapes, never a mixture.
     */
    ghost predicate Valid()
      reads this
    {
      (editIndex.Some? ==> 0 <= editIndex.value < |features|) &&
      (annotationData == Some(PrepareInvoiceData(prediction, features, image)) ||
       annotationData == visionData)
    }

    /**
     * The state a first submission leaves once both of its requests have
     * completed, with no handler run in between: the invoice shapes on
     * screen, the word shapes kept for editing, nothing being edited.
     */
    constructor (features: seq<string>, prediction: Prediction, pages: Option<seq<Page>>, image: string)
      ensures Valid()
      ensures this.features == features && this.prediction == prediction && this.image == image
      ensures pages.None? ==> visionData.None?
      ensures pages.Some? ==> visionData == Some(AnnotationData(image, VisionShapes(pages.value)))
      ensures annotationData == Some(PrepareInvoiceData(prediction, features, image))
      ensures editIndex.None? && editedText == Null
    {
      var vision := None;
      if pages.Some? {
        var data := PrepareVisionData(pages.value, image);
        vision := Some(data);
      }
      this.features := features;
      this.prediction := prediction;
      this.image := image;
      this.annotationData := Some(PrepareInvoiceData(prediction, features, image));
      this.visionData := vision;
      this.editIndex := None;
      this.editedText := Null;
    }

    /** `getValue(feature, index)`: the edited card shows the candidate text. */
    function GetValue(feature: string, index: int): (v: JsValue)
      reads this
      ensures editIndex == Some(index) ==> v == editedText
      ensures editIndex != Some(index) ==> v == FieldDisplay(prediction, feature)
    {
      if editIndex.Some? && editIndex.value == index then editedText
      else FieldDisplay(prediction, feature)
    }

    /** `handleEdit(index)`: card `index` becomes the only one in edit mode; the viewer shows the words. */
    method HandleEdit(index: int)
      requires Valid() && 0 <= index < |features|
      modifies this`editIndex, this`annotationData
      ensures Valid()
      ensures editIndex == Some(index)
      ensures annotationData == visionData
      ensures forall feature :: GetValue(feature, index) == editedText
      ensures forall feature, other :: other != index ==> GetValue(feature, other) == FieldDisplay(prediction, feature)
    {
      editIndex := Some(index);
      annotationData := visionData;
    }

    /** `handleCancel()`: no card is in edit mode; the candidate text and the overlay are kept. */
    method HandleCancel()
      requires Valid()
      modifies this`editIndex
      ensures Valid()
      ensures editIndex.None?
      ensures forall feature, index :: GetValue(feature, index) == FieldDisplay(prediction, feature)
    {
      editIndex := None;
    }

    /** `handleShapeSelect(shape)`: the clicked shape's text becomes the candidate. */
    method HandleShapeSelect(shape: Shape)
      requires Valid()
      modifies this`editedText
      ensures Valid()
      ensures editedText == ClickedText(shape)
    {
      editedText := ClickedText(shape);
    }

    /** `handleMultiShapeSelect(shapes)`: the selected texts joined by spaces become the candidate. */
    method HandleMultiShapeSelect(shapes: seq<Shape>)
      requires Valid()
      modifies this`editedText
      ensures Valid()
      ensures editedText == Str(MultiSelectText(shapes))
    {
      editedText := Str(MultiSelectText(shapes));
    }

    /**
     * `handleSave()`. With a candidate text and a card in edit mode, the
     * edited feature's field is updated (and nothing else in the
     * prediction); in every case that does not throw, the viewer goes back
     * to the invoice shapes, drawn over the image the upload widget holds
     * now (`currentImage`), and no card is edited any more: every card
     * shows its field, the saved one its new text. When the update throws,
     * the error is returned and the state is left as it was.
     */
    method HandleSave(currentImage: string) returns (failure: Option<SaveError>)
      requires Valid()
      modifies this`prediction, this`annotationData, this`editIndex, this`editedText, this`image
      ensures Valid()
      ensures !(old(editedText) != Null && old(editIndex).Some?) ==>
        failure.None? && prediction == old(prediction)
      ensures old(editedText) != Null && old(editIndex).Some? ==>
        var saved := SaveEdit(old(prediction), features[old(editIndex).value], old(editedText));
        (saved.Err? ==> failure == Some(saved.error) && unchanged(this)) &&
        (saved.Ok? ==> failure.None? && prediction == saved.value)
      ensures failure.None? ==>
        image == currentImage &&
        annotationData == Some(PrepareInvoiceData(old(prediction), features, currentImage)) &&
        editIndex.None? && editedText == Null
      ensures failure.None? ==> forall feature, index :: GetValue(feature, index) == FieldDisplay(prediction, feature)
      ensures failure.None? && old(editedText) != Null && old(editIndex).Some? &&
              features[old(editIndex).value] != LocaleFeature ==>
        GetValue(features[old(editIndex).value], old(editIndex).value) ==
          if Truthy(old(editedText)) then old(editedText) else Str(NotAvailable)
    {
      if editedText != Null && editIndex.Some? {
        var feature := features[editIndex.value];
        var saved := SaveEdit(prediction, feature, editedText);
        if saved.Err? {
          return Some(saved.error);
        }
        SaveKeepsInvoiceShapes(prediction, feature, editedText, features, currentImage);
        SaveThenDisplay(prediction, feature, editedText);
        prediction := saved.value;
      }
      image := currentImage;
      annotationData := Some(PrepareInvoiceData(prediction, features, image));
      editIndex := None;
      editedText := Null;
      failure := None;
    }
  }

  /**
   * Cancel keeps the candidate text: a text picked while editing one card,
   * then cancelled, is what a save on another card writes.
   */
  method CancelThenSaveOtherCard(first: Field, second: Field) returns (written: JsValue)
    ensures written == Str("12.50")
  {
    var pages := [Page([Word("12.50", [])])];
    var session := new EditSession(["totalAmount", "invoiceNumber"],
                                   map["totalAmount" := first, "invoiceNumber" := second], Some(pages), "");
    session.HandleEdit(0);
    // The viewer now shows the word shapes; the user clicks the only one.
    VisionShapesCount(pages);
    VisionShapeAt(pages, 0, 0);
    var clicked := session.annotationData.value.shapes[0];
    session.HandleShapeSelect(clicked);
    session.HandleCancel();
    session.HandleEdit(1);
    var failure := session.HandleSave("");
    written := session.prediction["invoiceNumber"].value;
  }
}
