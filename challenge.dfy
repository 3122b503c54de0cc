/**
 * `expandChallenge` (data.js): turn the truncated challenge text stored in the
 * sheet into a display sentence. Empty text is returned as is; text whose
 * lower-cased form starts with one of five phrases becomes "Read a book ...",
 * everything else "Read a ...". Text that is already a full sentence is not
 * recognised and gets a second prefix.
 */
module Challenge {
  import opened JsString

  /** The phrases that take the "Read a book" form. */
  predicate TakesBookForm(lower: string) {
    StartsWith(lower, "recommended by") || StartsWith(lower, "with ") || StartsWith(lower, "about ")
    || StartsWith(lower, "published ") || StartsWith(lower, "over ")
  }

  /** The three short forms the code tests for first. */
  predicate IsSpecialCase(lower: string) {
    lower == "memoir" || lower == "mystery or thriller" || lower == "graphic novel or comic"
  }

  /** Text that differs from `p` at some position of `p` does not start with `p`. */
  lemma DiffersAt(s: string, p: string, i: nat)
    requires i < |p| && i < |s| && s[i] != p[i]
    ensures !StartsWith(s, p)
  {
    if |p| <= |s| {
      assert s[..|p|][i] == s[i];
    }
  }

  /** Text whose first letter begins none of the five phrases does not take the book form. */
  lemma NoPhraseStartsWith(s: string)
    requires s != [] && s[0] != 'r' && s[0] != 'w' && s[0] != 'a' && s[0] != 'p' && s[0] != 'o'
    ensures !TakesBookForm(s)
  {
    DiffersAt(s, "recommended by", 0);
    DiffersAt(s, "with ", 0);
    DiffersAt(s, "about ", 0);
    DiffersAt(s, "published ", 0);
    DiffersAt(s, "over ", 0);
  }

  /** None of the three special cases takes the book form. */
  lemma SpecialCaseIsPlain(lower: string)
    requires IsSpecialCase(lower)
    ensures !TakesBookForm(lower)
  {
    assert lower[0] == 'm' || lower[0] == 'g';
    NoPhraseStartsWith(lower);
  }

  /**
   * Equivalently: "Read a book " before the lower-cased text when it starts with
   * one of the five phrases, "Read a " otherwise; the special cases change nothing.
   */
  function ExpandChallenge(challengeText: string): (r: string)
    ensures challengeText == [] ==> r == challengeText
    ensures challengeText != [] ==>
      r == (if TakesBookForm(ToLower(challengeText)) then "Read a book " else "Read a ") + ToLower(challengeText)
  {
    if challengeText == [] then challengeText
    else
      var expanded := ToLower(challengeText);
      if IsSpecialCase(expanded) then
        SpecialCaseIsPlain(expanded);
        "Read a " + expanded
      else if !TakesBookForm(expanded) then "Read a " + ToLower(challengeText)
      else "Read a book " + ToLower(challengeText)
  }

  /** The result depends only on the lower-cased text. */
  lemma CaseInsensitive(challengeText: string)
    ensures ExpandChallenge(challengeText) == ExpandChallenge(ToLower(challengeText))
  {
    ToLowerIdempotent(challengeText);
  }

  /** Non-empty text is never passed through: the result is always a strictly longer sentence. */
  lemma NeverUnchanged(challengeText: string)
    requires challengeText != []
    ensures |ExpandChallenge(challengeText)| > |challengeText|
    ensures ExpandChallenge(challengeText) != challengeText
  {
  }

  /** Text that starts with "rea" does not take the book form. */
  lemma ReadIsNotAPhrase(l: string)
    requires |l| >= 3 && l[0] == 'r' && l[1] == 'e' && l[2] == 'a'
    ensures !TakesBookForm(l)
  {
    DiffersAt(l, "recommended by", 2);
    DiffersAt(l, "with ", 0);
    DiffersAt(l, "about ", 0);
    DiffersAt(l, "published ", 0);
    DiffersAt(l, "over ", 0);
  }

  /** Expanding an already expanded sentence prefixes it again. */
  lemma FullSentenceExpandedAgain(challengeText: string)
    requires challengeText != []
    ensures ExpandChallenge(ExpandChallenge(challengeText)) == "Read a " + ToLower(ExpandChallenge(challengeText))
  {
    var e := ExpandChallenge(challengeText);
    var l := ToLower(e);
    assert e[0] == 'R' && e[1] == 'e' && e[2] == 'a';
    assert l[0] == LowerChar(e[0]) && l[1] == LowerChar(e[1]) && l[2] == LowerChar(e[2]);
    ReadIsNotAPhrase(l);
  }
}
