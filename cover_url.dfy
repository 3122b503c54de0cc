/**
 * `extractOLIDFromCoverURL` and `extractISBNFromCoverURL` (data.js): pull the
 * Open Library id out of a cover URL shaped like
 * `.../olid/OL12345678M-M.jpg` or `.../isbn/1234567890-M.jpg`. The regular
 * expressions carry the `i` flag, which in non-Unicode mode folds ASCII letters
 * only; the model spells each expression out as a scan for its leftmost match.
 */
module CoverUrl {
  import opened Wrappers
  import opened JsString

  /** `[A-Z0-9]` under the `i` flag, or `\d`. */
  datatype TokenClass = Alphanumeric | Digits

  predicate InClass(c: char, k: TokenClass) {
    match k
    case Alphanumeric => IsAsciiLetter(c) || IsAsciiDigit(c)
    case Digits => IsAsciiDigit(c)
  }

  predicate AllInClass(s: string, k: TokenClass) {
    forall i :: 0 <= i < |s| ==> InClass(s[i], k)
  }

  const OlidTag := "/olid/"
  const IsbnTag := "/isbn/"
  const PlaceholderOlid := "OL12345678M"

  /**
   * The expression `<tag>(<class>+)-[A-Z]\.jpg` (flag `i`) matches at position
   * `q` of `s` with `tok` as its capture group.
   */
  predicate MatchAt(s: string, q: nat, tag: string, k: TokenClass, tok: string) {
    var t := q + |tag|;
    && t + |tok| <= |s|
    && CiEquals(s[q..t], tag)
    && tok != []
    && s[t..t + |tok|] == tok
    && AllInClass(tok, k)
    && SuffixAt(s, t + |tok|)
  }

  /** `-[A-Z]\.jpg` (flag `i`) at position `e`. */
  predicate SuffixAt(s: string, e: nat) {
    e + 6 <= |s| && s[e] == '-' && IsAsciiLetter(s[e + 1]) && CiEquals(s[e + 2..e + 6], ".jpg")
  }

  /** The length of the run of class characters starting at `i`. */
  function RunLength(s: string, i: nat, k: TokenClass): (n: nat)
    requires i <= |s|
    ensures i + n <= |s|
    ensures AllInClass(s[i..i + n], k)
    ensures i + n < |s| ==> !InClass(s[i + n], k)
    decreases |s| - i
  {
    if i < |s| && InClass(s[i], k) then
      var n := 1 + RunLength(s, i + 1, k);
      assert s[i..i + n] == [s[i]] + s[i + 1..i + n];
      n
    else 0
  }

  /** A capture group is followed by `-`, which is in neither class: it is the whole greedy run. */
  lemma MatchIsGreedyRun(s: string, q: nat, tag: string, k: TokenClass, tok: string)
    requires MatchAt(s, q, tag, k, tok)
    ensures |tok| == RunLength(s, q + |tag|, k)
  {
  }

  /** So a match position fixes the token. */
  lemma MatchUnique(s: string, q: nat, tag: string, k: TokenClass, t1: string, t2: string)
    requires MatchAt(s, q, tag, k, t1) && MatchAt(s, q, tag, k, t2)
    ensures t1 == t2
  {
    MatchIsGreedyRun(s, q, tag, k, t1);
    MatchIsGreedyRun(s, q, tag, k, t2);
  }

  predicate TagAt(s: string, q: nat, tag: string) {
    q + |tag| <= |s| && CiEquals(s[q..q + |tag|], tag)
  }

  lemma GreedyRunMatches(s: string, q: nat, tag: string, k: TokenClass)
    requires TagAt(s, q, tag)
    ensures var t := q + |tag|; var n := RunLength(s, t, k);
      n > 0 && SuffixAt(s, t + n) <==> MatchAt(s, q, tag, k, s[t..t + n])
  {
  }

  lemma OnlyGreedyRunMatches(s: string, q: nat, tag: string, k: TokenClass)
    requires TagAt(s, q, tag)
    ensures var t := q + |tag|; var n := RunLength(s, t, k);
      forall tok :: MatchAt(s, q, tag, k, tok) ==> tok == s[t..t + n]
  {
    forall tok | MatchAt(s, q, tag, k, tok) ensures tok == s[q + |tag|..q + |tag| + RunLength(s, q + |tag|, k)] {
      MatchIsGreedyRun(s, q, tag, k, tok);
    }
  }

  /** The match at `q`, if any: the greedy run after the tag, then the suffix. */
  function TokenAt(s: string, q: nat, tag: string, k: TokenClass): Option<string>
    requires q <= |s|
  {
    if TagAt(s, q, tag) then
      var t := q + |tag|;
      var n := RunLength(s, t, k);
      if n > 0 && SuffixAt(s, t + n) then Some(s[t..t + n]) else None
    else None
  }

  /** `TokenAt` finds the match at `q` exactly when there is one. */
  lemma TokenAtIsExact(s: string, q: nat, tag: string, k: TokenClass)
    requires q <= |s|
    ensures var r := TokenAt(s, q, tag, k);
      && (r.Some? ==> MatchAt(s, q, tag, k, r.value))
      && (r.None? ==> forall tok :: !MatchAt(s, q, tag, k, tok))
  {
    if TagAt(s, q, tag) {
      GreedyRunMatches(s, q, tag, k);
      OnlyGreedyRunMatches(s, q, tag, k);
    }
  }

  datatype Hit = Hit(pos: nat, token: string)

  /** The leftmost match at or after `from`. */
  function FirstMatch(s: string, from: nat, tag: string, k: TokenClass): Option<Hit>
    requires from <= |s|
    decreases |s| - from
  {
    match TokenAt(s, from, tag, k)
    case Some(tok) => Some(Hit(from, tok))
    case None =>
      if from == |s| then None else FirstMatch(s, from + 1, tag, k)
  }

  /** `FirstMatch` finds the leftmost match, or reports that there is none. */
  lemma {:induction false} FirstMatchIsLeftmost(s: string, from: nat, tag: string, k: TokenClass)
    requires from <= |s|
    ensures var r := FirstMatch(s, from, tag, k);
      && (r.Some? ==> from <= r.value.pos && MatchAt(s, r.value.pos, tag, k, r.value.token))
      && (r.Some? ==> forall q, tok :: from <= q < r.value.pos ==> !MatchAt(s, q, tag, k, tok))
      && (r.None? ==> forall q, tok :: from <= q ==> !MatchAt(s, q, tag, k, tok))
    decreases |s| - from
  {
    TokenAtIsExact(s, from, tag, k);
    if TokenAt(s, from, tag, k).None? {
      if from < |s| {
        FirstMatchIsLeftmost(s, from + 1, tag, k);
        assert FirstMatch(s, from, tag, k) == FirstMatch(s, from + 1, tag, k);
      } else {
        forall q, tok | from <= q ensures !MatchAt(s, q, tag, k, tok) {
          if q > from {
            assert q + |tag| + |tok| > |s|;
          }
        }
      }
    }
  }

  /** `extractOLIDFromCoverURL`: the token of the leftmost OLID match, else the placeholder id. */
  function ExtractOlid(coverURL: string): (r: string)
    ensures r != []
    ensures AllInClass(r, Alphanumeric)
  {
    if coverURL == [] then PlaceholderOlid
    else
      FirstMatchIsLeftmost(coverURL, 0, OlidTag, Alphanumeric);
      match FirstMatch(coverURL, 0, OlidTag, Alphanumeric)
      case Some(h) => h.token
      case None => PlaceholderOlid
  }

  /** `extractISBNFromCoverURL`: the token of the leftmost ISBN match, else the empty string. */
  function ExtractIsbn(coverURL: string): (r: string)
    ensures AllDigits(r)
  {
    if coverURL == [] then ""
    else
      FirstMatchIsLeftmost(coverURL, 0, IsbnTag, Digits);
      match FirstMatch(coverURL, 0, IsbnTag, Digits)
      case Some(h) => h.token
      case None => ""
  }

  /** A URL with no OLID match at all (an absent URL included) gives the placeholder. */
  lemma OlidWithoutMatch(coverURL: string)
    requires forall q, tok :: !MatchAt(coverURL, q, OlidTag, Alphanumeric, tok)
    ensures ExtractOlid(coverURL) == PlaceholderOlid
  {
    if coverURL != [] {
      FirstMatchIsLeftmost(coverURL, 0, OlidTag, Alphanumeric);
    }
  }

  /** When the leftmost OLID match is at `q`, its capture group is the result. */
  lemma OlidFromLeftmostMatch(coverURL: string, q: nat, tok: string)
    requires MatchAt(coverURL, q, OlidTag, Alphanumeric, tok)
    requires forall q': nat, t :: q' < q ==> !MatchAt(coverURL, q', OlidTag, Alphanumeric, t)
    ensures ExtractOlid(coverURL) == tok
  {
    var r := FirstMatch(coverURL, 0, OlidTag, Alphanumeric);
    FirstMatchIsLeftmost(coverURL, 0, OlidTag, Alphanumeric);
    assert r.Some?;
    assert r.value.pos == q;
    MatchUnique(coverURL, q, OlidTag, Alphanumeric, tok, r.value.token);
  }

  /** The ISBN is the empty string exactly when there is no match. */
  lemma IsbnEmptyIffNoMatch(coverURL: string)
    ensures ExtractIsbn(coverURL) == [] <==> forall q, tok :: !MatchAt(coverURL, q, IsbnTag, Digits, tok)
  {
    if coverURL != [] {
      FirstMatchIsLeftmost(coverURL, 0, IsbnTag, Digits);
    }
  }

  /** When the leftmost ISBN match is at `q`, its capture group is the result. */
  lemma IsbnFromLeftmostMatch(coverURL: string, q: nat, tok: string)
    requires MatchAt(coverURL, q, IsbnTag, Digits, tok)
    requires forall q': nat, t :: q' < q ==> !MatchAt(coverURL, q', IsbnTag, Digits, t)
    ensures ExtractIsbn(coverURL) == tok
  {
    var r := FirstMatch(coverURL, 0, IsbnTag, Digits);
    FirstMatchIsLeftmost(coverURL, 0, IsbnTag, Digits);
    assert r.Some?;
    assert r.value.pos == q;
    MatchUnique(coverURL, q, IsbnTag, Digits, tok, r.value.token);
  }

  /** The tag and the file extension are matched without regard to case. */
  lemma OlidExample(u: string)
    requires u == "/OLID/ol1m-m.JPG"
    ensures ExtractOlid(u) == "ol1m"
  {
    assert MatchAt(u, 0, OlidTag, Alphanumeric, "ol1m") by {
      assert u[0..6] == "/OLID/" && u[6..10] == "ol1m";
      assert SuffixAt(u, 10) by {
        assert u[10] == '-' && u[11] == 'm' && u[12..16] == ".JPG";
      }
    }
    OlidFromLeftmostMatch(u, 0, "ol1m");
  }
}
