/**
 * `getKey`: the card label of a feature, made from its camel-case name by
 * putting a space in front of every upper-case ASCII letter and then
 * capitalising the first character ("totalAmount" becomes "Total Amount").
 */
module Label {

  /** The regular-expression class `[A-Z]`: ASCII capitals only. */
  predicate IsUpper(c: char)
  {
    'A' <= c <= 'Z'
  }

  predicate IsLower(c: char)
  {
    'a' <= c <= 'z'
  }

  /** `toUpperCase` on one character, restricted to ASCII letters. */
  function ToUpper(c: char): (u: char)
    ensures !IsLower(u)
    ensures IsLower(c) ==> IsUpper(u) && u as int - 'A' as int == c as int - 'a' as int
    ensures !IsLower(c) ==> u == c
  {
    if IsLower(c) then (c as int - 32) as char else c
  }

  /** The number of upper-case ASCII letters in `s`. */
  function CountUpper(s: string): nat
  {
    if s == [] then 0
    else (if IsUpper(s[0]) then 1 else 0) + CountUpper(s[1..])
  }

  /** `s.replace(/([A-Z])/g, ' $1')`. */
  function SpaceBeforeCapitals(s: string): (r: string)
    ensures |r| == |s| + CountUpper(s)
    ensures r != [] ==> !IsUpper(r[0])
  {
    if s == [] then []
    else if IsUpper(s[0]) then [' ', s[0]] + SpaceBeforeCapitals(s[1..])
    else [s[0]] + SpaceBeforeCapitals(s[1..])
  }

  /**
   * `s.replace(/^./, str => str.toUpperCase())`. The pattern `.` does not
   * match a line terminator, but `ToUpper` leaves those unchanged anyway.
   */
  function CapitalizeFirst(s: string): (r: string)
  {
    if s == [] then [] else [ToUpper(s[0])] + s[1..]
  }

  /** `getKey(feature)`. */
  function GetKey(feature: string): (key: string)
    ensures |key| == |feature| + CountUpper(feature)
    ensures key != [] ==> !IsLower(key[0])
  {
    CapitalizeFirst(SpaceBeforeCapitals(feature))
  }

  /** Every capital in the spaced name has a space right before it. */
  lemma {:induction false} CapitalsFollowSpace(s: string)
    ensures forall i :: 0 <= i < |SpaceBeforeCapitals(s)| && IsUpper(SpaceBeforeCapitals(s)[i]) ==>
      0 < i && SpaceBeforeCapitals(s)[i - 1] == ' '
  {
    if s != [] {
      CapitalsFollowSpace(s[1..]);
      var rest := SpaceBeforeCapitals(s[1..]);
      var r := SpaceBeforeCapitals(s);
      var d := if IsUpper(s[0]) then 2 else 1;
      assert r[d..] == rest;
      forall i | 0 <= i < |r| && IsUpper(r[i]) ensures 0 < i && r[i - 1] == ' ' {
        if i >= d {
          assert r[i] == rest[i - d];
          if i > d {
            assert r[i - 1] == rest[i - 1 - d];
          }
        }
      }
    }
  }

  /**
   * In the label, every capital after the first position has a space
   * right before it; the first character is never a lower-case letter.
   */
  lemma GetKeySpaces(feature: string)
    ensures forall i :: 0 < i < |GetKey(feature)| && IsUpper(GetKey(feature)[i]) ==> GetKey(feature)[i - 1] == ' '
    ensures GetKey(feature) != [] ==> !IsLower(GetKey(feature)[0])
  {
    var spaced := SpaceBeforeCapitals(feature);
    CapitalsFollowSpace(feature);
    var key := GetKey(feature);
    forall i | 0 < i < |key| && IsUpper(key[i]) ensures key[i - 1] == ' ' {
      assert key[i] == spaced[i];
      assert spaced[i - 1] == ' ';
    }
  }

  /** The inverse of `SpaceBeforeCapitals`: drops a space that stands right before a capital. */
  function DropSpaceBeforeCapitals(r: string): string
  {
    if |r| >= 2 && r[0] == ' ' && IsUpper(r[1]) then [r[1]] + DropSpaceBeforeCapitals(r[2..])
    else if r == [] then []
    else [r[0]] + DropSpaceBeforeCapitals(r[1..])
  }

  /** Inserting the spaces loses nothing: every original character is kept, in order. */
  lemma {:induction false} DropSpaceBeforeCapitalsInverse(s: string)
    ensures DropSpaceBeforeCapitals(SpaceBeforeCapitals(s)) == s
  {
    if s != [] {
      var rest := SpaceBeforeCapitals(s[1..]);
      DropSpaceBeforeCapitalsInverse(s[1..]);
      if IsUpper(s[0]) {
        var r := [' ', s[0]] + rest;
        assert r[2..] == rest;
        assert DropSpaceBeforeCapitals(r) == [s[0]] + s[1..];
      } else {
        var r := [s[0]] + rest;
        assert r[1..] == rest;
        assert !(|r| >= 2 && IsUpper(r[1]));
        assert DropSpaceBeforeCapitals(r) == [s[0]] + s[1..];
      }
      assert [s[0]] + s[1..] == s;
    }
  }

  /**
   * The label, with the inserted spaces taken out again, is the feature
   * name with its first character upper-cased.
   */
  lemma GetKeyInverse(feature: string)
    ensures feature == [] ==> GetKey(feature) == []
    ensures feature != [] ==>
      DropSpaceBeforeCapitals(GetKey(feature)) == [ToUpper(feature[0])] + feature[1..]
  {
    if feature != [] {
      var spaced := SpaceBeforeCapitals(feature);
      var rest := SpaceBeforeCapitals(feature[1..]);
      DropSpaceBeforeCapitalsInverse(feature[1..]);
      var key := GetKey(feature);
      if IsUpper(feature[0]) {
        // A leading capital gets a leading space, which `ToUpper` keeps.
        assert key == [' ', feature[0]] + rest;
        assert key[2..] == rest;
      } else {
        assert key == [ToUpper(feature[0])] + rest;
        assert key[1..] == rest;
        assert !(|key| >= 2 && IsUpper(key[1]));
      }
    }
  }

  /** Spaces are inserted character by character, so the transform distributes over concatenation. */
  lemma {:induction false} SpaceBeforeCapitalsAppend(a: string, b: string)
    ensures SpaceBeforeCapitals(a + b) == SpaceBeforeCapitals(a) + SpaceBeforeCapitals(b)
  {
    if a != [] {
      assert (a + b)[1..] == a[1..] + b;
      SpaceBeforeCapitalsAppend(a[1..], b);
    } else {
      assert a + b == b;
    }
  }

  /** A name without capitals is left as it is by the first replacement. */
  lemma {:induction false} SpaceBeforeCapitalsNoCapitals(s: string)
    requires forall i :: 0 <= i < |s| ==> !IsUpper(s[i])
    ensures SpaceBeforeCapitals(s) == s
  {
    if s != [] {
      SpaceBeforeCapitalsNoCapitals(s[1..]);
    }
  }

  /** A leading capital gets a space in front of it. */
  lemma SpaceBeforeLeadingCapital(capital: char, rest: string)
    requires IsUpper(capital)
    ensures SpaceBeforeCapitals([capital] + rest) == [' ', capital] + SpaceBeforeCapitals(rest)
  {
  }

  /** A prefix without capitals passes through unchanged. */
  lemma SpaceBeforeCapitalsLowerPrefix(first: string, tail: string)
    requires forall i :: 0 <= i < |first| ==> !IsUpper(first[i])
    ensures SpaceBeforeCapitals(first + tail) == first + SpaceBeforeCapitals(tail)
  {
    SpaceBeforeCapitalsAppend(first, tail);
    SpaceBeforeCapitalsNoCapitals(first);
  }

  /** The spaced form of a two-word camel-case name. */
  lemma SpacedTwoWords(first: string, capital: char, rest: string)
    requires IsUpper(capital)
    requires forall i :: 0 <= i < |first| ==> !IsUpper(first[i])
    requires forall i :: 0 <= i < |rest| ==> !IsUpper(rest[i])
    ensures SpaceBeforeCapitals(first + ([capital] + rest)) == first + ([' ', capital] + rest)
  {
    SpaceBeforeCapitalsLowerPrefix(first, [capital] + rest);
    SpaceBeforeLeadingCapital(capital, rest);
    SpaceBeforeCapitalsNoCapitals(rest);
  }

  /**
   * A two-word camel-case name `firstWord` + `Rest`: the label is the first
   * word capitalised, a space, then the second word ("totalAmount" gives
   * "Total Amount").
   */
  lemma GetKeyTwoWords(first: string, capital: char, rest: string)
    requires first != [] && IsUpper(capital)
    requires forall i :: 0 <= i < |first| ==> !IsUpper(first[i])
    requires forall i :: 0 <= i < |rest| ==> !IsUpper(rest[i])
    ensures GetKey(first + ([capital] + rest)) == [ToUpper(first[0])] + (first[1..] + ([' ', capital] + rest))
  {
    SpacedTwoWords(first, capital, rest);
    var spaced := first + ([' ', capital] + rest);
    assert spaced[0] == first[0];
    assert spaced[1..] == first[1..] + ([' ', capital] + rest);
  }

  /** The invoice total's feature name gets the label "Total Amount". */
  lemma GetKeyTotalAmount()
    ensures GetKey("totalAmount") == "Total Amount"
  {
    var first, rest := "total", "mount";
    GetKeyTwoWords(first, 'A', rest);
    assert "totalAmount" == first + (['A'] + rest);
    assert ToUpper('t') == 'T';
    assert [ToUpper(first[0])] + (first[1..] + ([' ', 'A'] + rest)) == "Total Amount";
  }
}
