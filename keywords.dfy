/**
 * The keyword filter `check_key_word_in_text`: a listing is kept when at
 * least one keyword, lower-cased, occurs in its lower-cased description.
 */
module Keywords {
  import opened Text

  /** Some keyword, lower-cased, occurs in the lower-cased text. */
  ghost predicate SomeKeyWordOccurs(keyWords: seq<string>, text: string)
  {
    exists i :: 0 <= i < |keyWords| && IsSubstring(Lower(keyWords[i]), Lower(text))
  }

  /** `sum([int(word.lower() in text.lower()) for word in key_words])`. */
  function MatchCount(keyWords: seq<string>, text: string): (n: nat)
    ensures n <= |keyWords|
  {
    if keyWords == [] then 0
    else (if Contains(Lower(text), Lower(keyWords[0])) then 1 else 0) + MatchCount(keyWords[1..], text)
  }

  /** The sum is positive exactly when some keyword occurs. */
  lemma {:induction false} MatchCountPositive(keyWords: seq<string>, text: string)
    ensures MatchCount(keyWords, text) >= 1 <==> SomeKeyWordOccurs(keyWords, text)
    decreases |keyWords|
  {
    if keyWords != [] {
      ContainsIsSubstring(Lower(text), Lower(keyWords[0]));
      MatchCountPositive(keyWords[1..], text);
      if SomeKeyWordOccurs(keyWords[1..], text) {
        var i :| 0 <= i < |keyWords[1..]| && IsSubstring(Lower(keyWords[1..][i]), Lower(text));
        assert keyWords[1..][i] == keyWords[i + 1];
      }
      if SomeKeyWordOccurs(keyWords, text) {
        var i :| 0 <= i < |keyWords| && IsSubstring(Lower(keyWords[i]), Lower(text));
        if i > 0 {
          assert keyWords[1..][i - 1] == keyWords[i];
        }
      }
    }
  }

  /** `check_key_word_in_text`: true exactly when some keyword occurs, ignoring case. */
  function CheckKeyWordInText(keyWords: seq<string>, text: string): (r: bool)
    ensures r <==> SomeKeyWordOccurs(keyWords, text)
  {
    MatchCountPositive(keyWords, text);
    MatchCount(keyWords, text) >= 1
  }

  /** No keywords: nothing passes. An empty keyword: everything passes. */
  lemma KeyWordEdgeCases(keyWords: seq<string>, text: string)
    ensures !CheckKeyWordInText([], text)
    ensures "" in keyWords ==> CheckKeyWordInText(keyWords, text)
  {
    if "" in keyWords {
      var i :| 0 <= i < |keyWords| && keyWords[i] == "";
      EmptyIsSubstring(Lower(text));
      assert Lower(keyWords[i]) == "";
    }
  }

  /** The test ignores the case of the description. */
  lemma CheckKeyWordIgnoresTextCase(keyWords: seq<string>, text: string)
    ensures CheckKeyWordInText(keyWords, Lower(text)) == CheckKeyWordInText(keyWords, text)
  {
    LowerIdempotent(text);
  }

  /** The test ignores the case of the keywords. */
  lemma CheckKeyWordIgnoresKeyWordCase(keyWords: seq<string>, text: string)
    ensures CheckKeyWordInText(seq(|keyWords|, i requires 0 <= i < |keyWords| => Lower(keyWords[i])), text)
         == CheckKeyWordInText(keyWords, text)
  {
    var lowered := seq(|keyWords|, i requires 0 <= i < |keyWords| => Lower(keyWords[i]));
    forall i | 0 <= i < |keyWords| ensures Lower(lowered[i]) == Lower(keyWords[i]) {
      LowerIdempotent(keyWords[i]);
    }
  }

  /** A description mentioning Django passes the filter `["Django", "Flask"]`. */
  lemma DjangoDescriptionPasses()
    ensures CheckKeyWordInText(["Django", "Flask"], "We use Django daily")
  {
    var src := "We use Django daily";
    var text := Lower(src);
    assert Lower("Django") == "django";
    assert src[7..13] == "Django";
    assert text[7..13] == Lower(src[7..13]);
    assert OccursAt(Lower("Django"), text, 7);
  }

  /** A description mentioning neither Django nor Flask is filtered out. */
  lemma JavaDescriptionFails()
    ensures !CheckKeyWordInText(["Django", "Flask"], "We use Java")
  {
    var text := Lower("We use Java");
    assert Lower("Django") == "django" && Lower("Flask") == "flask";
    assert forall k :: 0 <= k < |text| ==> text[k] != 'd' && text[k] != 'f';
    forall i | 0 <= i < |text| ensures !OccursAt("django", text, i) && !OccursAt("flask", text, i) {
      assert i + 5 <= |text| ==> text[i..i + 5][0] != 'f';
      assert i + 6 <= |text| ==> text[i..i + 6][0] != 'd';
    }
    var keyWords := ["Django", "Flask"];
    assert forall j :: 0 <= j < |keyWords| ==> keyWords[j] == "Django" || keyWords[j] == "Flask";
  }
}
