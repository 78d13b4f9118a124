# Invoice field editor: a Dafny model

The application is a browser front end for an invoice-scanning API. It sends an
uploaded document to two prediction endpoints. It draws the returned fields and
words as polygons over the image, and it lists each predicted field on a card.
The user can correct a card by putting it in edit mode, clicking or
multi-selecting words on the image, and saving.

This project models the sequential logic inside `src/App.js`:

- **Card labels** (`getKey`). A camel-case feature name becomes a label: a space
  before every ASCII capital, then the first character upper-cased. See module
  `Label`.
- **Card values** (`getValue`). The edited card shows the candidate text. Any
  other card shows null for a missing field, `"Language: X, Currency: Y"` for
  `locale`, or the field's value, with `"N/A"` for a falsy value. See
  `App.FieldDisplay` and `App.EditSession.GetValue`.
- **Shape adapters**.
  - `prepareInvoiceData` produces one shape per feature that has a polygon. Its
    id is the feature's position plus one.
  - `prepareVisionData` produces one shape per word, with id
    `page * 1000 + word`. It is an imperative nested loop in
    `Shapes.PrepareVisionData`.
  - See module `Shapes`.
- **Edit session**. The `useState` variables `editIndex`, `editedText`,
  `annotationData` and the invoice prediction are fields of the class
  `App.EditSession`. The handlers `handleEdit`, `handleCancel`, `handleSave`,
  `handleShapeSelect` and `handleMultiShapeSelect` are methods that assign
  those fields in order.
- **Locale parse**. Saving the `locale` card uses `split(', ')` and
  `replace(prefix, '')`. See module `Locale`; the JavaScript string operations
  it needs are in `JsStrings`.

JavaScript values that the cards can hold are modelled as
`JsValue = Null | Undefined | Str | Num`, with JavaScript truthiness written
out (`Predictions.Truthy`). `editedText` can really be `undefined`: clicking an
invoice shape, which carries no text, sets it to `undefined`, and
`undefined !== null` lets a save go ahead.

Three behaviours of the code are worth knowing:

- **Cancel keeps the candidate text.** `handleCancel` only clears `editIndex`.
  A text picked for one card and then cancelled is what a later save on
  another card writes. `App.CancelThenSaveOtherCard` shows this.
- **Word ids are unique only up to 1000 words per page.** Line 107 calls the
  id unique. Ids stay distinct as long as every page except the last has at
  most 1000 words, so exactly 1000 is still safe
  (`Shapes.VisionIdsIncreasing`). A page with more than 1000 words, followed
  by a non-empty page, does collide (`Shapes.VisionIdCollision`).
- **The overlay recomputed on save.** Line 54 may read the prediction from
  before the update. The spread at line 40 copies only the top level, so
  whether it sees the old or the new field values depends on when React runs
  the updater. Either way the shapes are the same: a save never changes which
  fields exist or any polygon (`App.SaveKeepsInvoiceShapes`).

## Model

| member | source | states |
|---|---|---|
| `Label.SpaceBeforeCapitals` | src/App.js:81 | the first replacement adds exactly one character per ASCII capital, and its result never starts with a capital |
| `Label.CapitalsFollowSpace` | src/App.js:81 | every capital in the spaced name has a space immediately before it |
| `Label.DropSpaceBeforeCapitalsInverse` | src/App.js:81 | removing each space that stands before a capital gives back the original name, so every original character is kept, in order |
| `Label.ToUpper` | src/App.js:81 | upper-casing turns a lower-case ASCII letter into the capital at the same alphabet position, leaves every other character unchanged, and never yields a lower-case letter |
| `Label.GetKey` | src/App.js:80-82 | label length = name length + number of capitals; the label never starts with a lower-case letter |
| `Label.GetKeySpaces` | src/App.js:80-82 | every capital after the first position of the label has a space before it |
| `Label.GetKeyInverse` | src/App.js:80-82 | an empty name gives an empty label; otherwise the label without its inserted spaces is the name with its first character upper-cased |
| `Label.SpaceBeforeCapitalsAppend` | src/App.js:81 | the global replacement works character by character, so it distributes over concatenation |
| `Label.GetKeyTwoWords` | src/App.js:80-82 | a camel-case name `first` + `Rest`, with no other capitals, gives `First Rest` |
| `Label.GetKeyTotalAmount` | src/App.js:80-82 | the feature "totalAmount" is labelled "Total Amount" |
| `JsStrings.IndexOf` | src/App.js:44-45 | the first occurrence of a pattern; none exactly when the pattern does not occur |
| `JsStrings.Split` | src/App.js:44-45 | `split` yields one piece exactly when the separator does not occur, and then that piece is the whole text; otherwise the first piece is the text before the first separator |
| `JsStrings.JoinSplit` | src/App.js:44-45 | joining the pieces of a split with the separator gives back the text, so no character is lost or added |
| `JsStrings.SplitPiecesClean` | src/App.js:44-45 | no piece of a split contains the separator |
| `JsStrings.RemoveFirst` | src/App.js:44-45 | `replace` with a string pattern leaves the text unchanged when the pattern does not occur, and otherwise removes exactly as many characters as the pattern has |
| `JsStrings.RemoveFirstAt` | src/App.js:44-45 | `replace` removes the first occurrence of the pattern and keeps everything before and after it, including later occurrences |
| `JsStrings.RemoveFirstPrefix` | src/App.js:44-45 | a text that starts with the prefix loses exactly that prefix |
| `JsStrings.SplitJoin` | src/App.js:183 | splitting on a one-character separator undoes `join` with it, when no part contains that character |
| `JsStrings.JoinLength` | src/App.js:183 | `join` adds one separator between neighbours and nothing else |
| `Locale.ParseLocale` | src/App.js:44-45 | parsing the edited locale text fails exactly when it has no `", "` (then `split(', ')[1]` is undefined and `.replace` throws) |
| `Locale.ParsedLanguage` | src/App.js:44 | the language read back from the display text of line 72 is the original exactly when it has no `", "` |
| `Locale.ParsedCurrency` | src/App.js:45 | with a clean language, the currency read back is the original exactly when it has no `", "` |
| `Locale.ParseFormatLocale` | src/App.js:44-45 | round trip with the format of line 72: parse(format(language, currency)) gives back both exactly when neither contains `", "` |
| `App.FieldDisplay` | src/App.js:65-77 | a card shows null exactly for a missing field; an ordinary field always shows something truthy, which is its value when that is truthy; `locale` shows a string |
| `App.LocaleDisplayParses` | src/App.js:72 | the locale card's text parses back to the language and currency it shows exactly when neither contains `", "` |
| `App.SaveEdit` | src/App.js:38-48 | the save fails exactly for a missing field or a locale text that is not a string or has no `", "`; otherwise only the edited feature changes, its polygon is kept, and only `.value` (or only language and currency for `locale`) is written |
| `App.SaveThenDisplay` | src/App.js:41-48 | after a save the card shows the saved text ("N/A" if falsy); a locale text in display form, when neither its language nor its currency contains `", "`, shows again exactly as saved |
| `App.SaveKeepsInvoiceShapes` | src/App.js:54 | the invoice overlay computed before and after the prediction update is the same |
| `App.MultiSelectSplits` | src/App.js:179-187 | for a non-empty selection whose texts contain no space, the multi-selection text splits on spaces back into the selected texts, in selection order |
| `App.MultiSelectExample` | src/App.js:181-183 | selecting "Invoice", "#", "1234" in that order gives "Invoice # 1234" |
| `App.ClickedText` | src/App.js:175 | a clicked shape with a text gives exactly that text as a string; a shape without one gives `undefined`, never `null` |
| `App.EditSession.constructor` | src/App.js:147-165 | after a first submission whose two requests both complete, with no handler run in between, the invoice shapes are shown, the word shapes are kept for editing, and nothing is being edited |
| `App.EditSession.HandleEdit` | src/App.js:26-29 | the given card becomes the only one in edit mode: it shows the candidate text, while every other card shows its field (`getValue`); the viewer shows the word shapes; the candidate text and the prediction are untouched |
| `App.EditSession.HandleCancel` | src/App.js:31-33 | no card is in edit mode, so every card shows its field (`getValue`); the candidate text, the overlay and the prediction are untouched |
| `App.EditSession.HandleShapeSelect` | src/App.js:173-177 | the candidate text becomes the clicked shape's text; nothing else changes |
| `App.EditSession.HandleMultiShapeSelect` | src/App.js:179-187 | the candidate text becomes the selected texts joined by single spaces; nothing else changes |
| `App.EditSession.HandleSave` | src/App.js:35-59 | the prediction changes only when both a candidate text and an edited card exist, and then by `SaveEdit`; afterwards the invoice overlay is drawn over the widget's current image, the edit state is null, every card shows its field, and an ordinary edited card shows the saved text ("N/A" if falsy); a throwing update leaves everything as it was |
| `App.CancelThenSaveOtherCard` | src/App.js:31-33 | a word clicked in the viewer while editing one card, then cancelled, is what a save on another card writes |
| `Shapes.Present` | src/App.js:94 | the filter keeps exactly the non-null shapes and never lengthens the list |
| `Shapes.PresentKeepsIdOrder` | src/App.js:94 | the filter keeps ids in the order they had |
| `Shapes.PrepareInvoiceData` | src/App.js:84-100 | the image is passed through and there are at most as many shapes as features |
| `Shapes.InvoiceShapes` | src/App.js:84-100 | each shape is the feature at position id - 1, which has a polygon, with that polygon and no text; every feature with a polygon has its shape; ids strictly increase |
| `Shapes.PrepareVisionData` | src/App.js:102-118 | the nested loops push exactly the shapes of all words, page by page |
| `Shapes.VisionShapesCount` | src/App.js:102-118 | the number of shapes equals the number of words |
| `Shapes.VisionShapeAt` | src/App.js:104-111 | word w of page p sits after all words of earlier pages, with id p * 1000 + w, its polygon and its text |
| `Shapes.VisionIdsBelow` | src/App.js:107 | with at most 1000 words per page, ids lie below 1000 times the page count |
| `Shapes.VisionIdsIncreasing` | src/App.js:107 | ids strictly increase, so are pairwise distinct, when every page but the last has at most 1000 words |
| `Shapes.VisionIdCollision` | src/App.js:107 | whenever some page has more than 1000 words and the next page is not empty, two shapes share an id |

## Left out

- `handlePredictions` (src/App.js:121-171) is not modelled: the two `fetch` calls, `FormData`, JSON decoding, the API key and `serverError`. This is network I/O. The constructor of `App.EditSession` stands for the state a first submission leaves once both of its requests have completed, with no handler run in between.
- The upload widget and the annotation viewer are not modelled. The image is an opaque string, and `App.EditSession.HandleSave` takes the widget's current image as a parameter. The crash when `pond` has no file is not modelled.
- JSX rendering, CSS, icons and `console.log` are left out.
- React batches state updates asynchronously and runs the updater of `setInvoicePrediction` later. The model applies every setter as an assignment, in order.
- `App.EditSession.HandleSave`: when the update throws, the model returns the error and keeps the old state. In the application the exception escapes from the state updater and React unmounts the page. On the locale path, line 44 has already written the language before line 45 throws; that partial write is not modelled.
- `Label.ToUpper`: only ASCII letters are upper-cased. The Unicode case mapping of `toUpperCase`, such as "ß" becoming "SS", is not modelled.
- `Predictions.Truthy`: `NaN`, booleans and objects as field values are not modelled.
- A `language` or `currency` key that is missing is modelled like `null`. In JavaScript it would be shown as "undefined", not "null".
- A second submission while a card is being edited is not modelled. `handlePredictions` replaces the prediction and the card list but keeps `editIndex` and `editedText`, so the edited index may no longer name a card.
- Handlers that run between the two requests of a submission are not modelled. A `handleEdit` there switches the viewer to the word shapes of the previous submission (or to null), and a later `setVisionPrediction` does not update the viewer. This breaks the overlay invariant of `App.EditSession.Valid`.
- Handlers are never called before a prediction exists. The cards that trigger them are only rendered once `features` is set.
- `App.EditSession.HandleEdit` requires an index of an existing card, since only the card list calls it.
