/**
 * The `locale` card shows "Language: X, Currency: Y" (src/App.js:72) and
 * saving it parses that text back with `split(', ')` and two `replace`
 * calls (src/App.js:44-45).
 */
module Locale {
  import opened Wrappers
  import opened JsStrings

  const LanguagePrefix := "Language: "
  const CurrencyPrefix := "Currency: "
  const Separator := ", "

  /** Why parsing the edited locale text throws. */
  datatype ParseError =
    | NotAString   // `editedText.split` on `undefined`
    | NoSeparator  // `split(', ')[1]` is `undefined`, so `.replace` throws

  /** The display text of a locale field. */
  function FormatLocale(language: string, currency: string): string
  {
    LanguagePrefix + language + Separator + CurrencyPrefix + currency
  }

  /**
   * The language and currency read back from an edited locale text: the
   * first two `", "`-separated pieces, each with the first occurrence of its
   * prefix removed (wherever that occurrence is).
   */
  function ParseLocale(text: string): (r: Result<(string, string), ParseError>)
    ensures r.Err? <==> !Contains(text, Separator)
    ensures r.Err? ==> r.error == NoSeparator
    ensures r.Ok? ==> |r.value.0| < |text|
  {
    var parts := Split(text, Separator);
    if |parts| < 2 then Err(NoSeparator)
    else Ok((RemoveFirst(parts[0], LanguagePrefix), RemoveFirst(parts[1], CurrencyPrefix)))
  }

  /** `", "` occurs at `j` exactly when a comma is followed by a space there. */
  lemma OccursSeparator(s: string, j: int)
    ensures OccursAt(s, Separator, j) <==> 0 <= j && j + 1 < |s| && s[j] == ',' && s[j + 1] == ' '
  {
  }

  /** The first `", "` of a formatted locale text is the one between the two halves, or lies in the language. */
  lemma {:induction false} FirstSeparator(language: string, currency: string)
    ensures var s := FormatLocale(language, currency);
      !Contains(language, Separator) ==> IndexOf(s, Separator) == Some(|LanguagePrefix| + |language|)
    ensures var s := FormatLocale(language, currency);
      Contains(language, Separator) ==>
        (IndexOf(s, Separator).Some? &&
         |LanguagePrefix| <= IndexOf(s, Separator).value < |LanguagePrefix| + |language|)
  {
    var s := FormatLocale(language, currency);
    var n := |LanguagePrefix|;
    var k := n + |language|;
    assert s == LanguagePrefix + language + Separator + CurrencyPrefix + currency;
    forall j | 0 <= j < n ensures !OccursAt(s, Separator, j) {
      OccursSeparator(s, j);
      assert s[j] == LanguagePrefix[j];
    }
    forall j | n <= j < k ensures OccursAt(s, Separator, j) <==> OccursAt(language, Separator, j - n) {
      OccursSeparator(s, j);
      OccursSeparator(language, j - n);
      assert s[j] == language[j - n];
      if j + 1 < k {
        assert s[j + 1] == language[j + 1 - n];
      } else {
        assert s[j + 1] == ',';
      }
    }
    if !Contains(language, Separator) {
      OccursSeparator(s, k);
      assert s[k] == ',' && s[k + 1] == ' ';
      IndexOfIs(s, Separator, k);
    } else {
      var j0 :| 0 <= j0 <= |language| && OccursAt(language, Separator, j0);
      assert OccursAt(s, Separator, n + j0);
      var r := IndexOf(s, Separator);
      assert r.Some?;
      assert r.value <= n + j0;
    }
  }

  /** The currency half of a formatted locale text contains no `", "` beyond those of the currency. */
  lemma CurrencyHalf(currency: string)
    ensures Contains(CurrencyPrefix + currency, Separator) <==> Contains(currency, Separator)
    ensures Contains(currency, Separator) ==>
      |CurrencyPrefix| <= IndexOf(CurrencyPrefix + currency, Separator).value
  {
    var s := CurrencyPrefix + currency;
    var n := |CurrencyPrefix|;
    forall j | 0 <= j < n ensures !OccursAt(s, Separator, j) {
      OccursSeparator(s, j);
      assert s[j] == CurrencyPrefix[j];
    }
    forall j | n <= j <= |s| ensures OccursAt(s, Separator, j) <==> OccursAt(currency, Separator, j - n) {
      OccursSeparator(s, j);
      OccursSeparator(currency, j - n);
      if j + 1 < |s| {
        assert s[j] == currency[j - n] && s[j + 1] == currency[j + 1 - n];
      }
    }
    if Contains(currency, Separator) {
      var j0 :| 0 <= j0 <= |currency| && OccursAt(currency, Separator, j0);
      assert OccursAt(s, Separator, n + j0);
    }
    if Contains(s, Separator) {
      var j0 :| 0 <= j0 <= |s| && OccursAt(s, Separator, j0);
      assert OccursAt(currency, Separator, j0 - n);
    }
  }

  /**
   * A text that starts with the language prefix and contains `", "` parses,
   * and its language is what lies between the prefix and the first `", "`.
   */
  lemma ParsedHead(s: string)
    requires Contains(s, Separator)
    requires |LanguagePrefix| <= IndexOf(s, Separator).value
    requires s[..|LanguagePrefix|] == LanguagePrefix
    ensures ParseLocale(s).Ok?
    ensures ParseLocale(s).value.0 == s[|LanguagePrefix|..IndexOf(s, Separator).value]
  {
  }

  /** A formatted locale text starts with the language prefix, followed by the language. */
  lemma FormatLocaleStart(language: string, currency: string)
    ensures var s := FormatLocale(language, currency);
      |LanguagePrefix| + |language| < |s| &&
      s[..|LanguagePrefix|] == LanguagePrefix &&
      s[|LanguagePrefix|..|LanguagePrefix| + |language|] == language
  {
    var s := FormatLocale(language, currency);
    var tail := Separator + CurrencyPrefix + currency;
    assert s == LanguagePrefix + language + tail;
  }

  /** The language read back is the original one exactly when it contains no `", "`. */
  lemma ParsedLanguage(language: string, currency: string)
    ensures ParseLocale(FormatLocale(language, currency)).Ok?
    ensures ParseLocale(FormatLocale(language, currency)).value.0 == language
        <==> !Contains(language, Separator)
  {
    var s := FormatLocale(language, currency);
    FormatLocaleStart(language, currency);
    FirstSeparator(language, currency);
    ParsedHead(s);
  }

  /**
   * When the language is free of `", "`, the currency read back is the
   * original one exactly when it contains no `", "` either.
   */
  lemma ParsedCurrency(language: string, currency: string)
    requires !Contains(language, Separator)
    ensures ParseLocale(FormatLocale(language, currency)).Ok?
    ensures ParseLocale(FormatLocale(language, currency)).value.1 == currency
        <==> !Contains(currency, Separator)
  {
    var s := FormatLocale(language, currency);
    var n := |LanguagePrefix|;
    FirstSeparator(language, currency);
    var k := n + |language|;
    var rest := s[k + |Separator|..];
    assert rest == CurrencyPrefix + currency;
    var parts := Split(s, Separator);
    assert parts[1] == Split(rest, Separator)[0];
    CurrencyHalf(currency);
    var piece := parts[1];
    if Contains(currency, Separator) {
      var m := IndexOf(rest, Separator).value;
      assert piece == rest[..m];
      assert piece == CurrencyPrefix + rest[|CurrencyPrefix|..m];
      RemoveFirstPrefix(CurrencyPrefix, rest[|CurrencyPrefix|..m]);
      assert |ParseLocale(s).value.1| < |currency|;
    } else {
      assert piece == rest;
      RemoveFirstPrefix(CurrencyPrefix, currency);
    }
  }

  /**
   * The locale round trip: parsing the display text gives back the language
   * and the currency exactly when neither contains `", "`.
   */
  lemma ParseFormatLocale(language: string, currency: string)
    ensures ParseLocale(FormatLocale(language, currency)) == Ok((language, currency))
        <==> !Contains(language, Separator) && !Contains(currency, Separator)
  {
    ParsedLanguage(language, currency);
    if !Contains(language, Separator) {
      ParsedCurrency(language, currency);
    }
  }
}
