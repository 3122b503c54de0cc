/**
 * The decision rules of ui.js that read the leaderboard model: which cover a
 * review card shows (`getReviewCoverUrl`), the order of the leaderboard (the
 * copy-and-sort in `renderLeaderboard`), the totals of `updateStats`, and the
 * wording of a participant's label. The HTML they feed is not modelled.
 */
module UiRules {
  import opened Wrappers
  import opened JsString
  import opened Leaderboard
  import opened LeaderboardFacts
  import CoverUrl

  // ------------------------------------------------------------ review covers

  /** The fields of a review object that `getReviewCoverUrl` reads; `None` is `undefined`. */
  datatype CoverSource = CoverSource(coverURL: Option<string>, olid: Option<string>, isbn: Option<string>)

  /** `v && v.trim() !== ''`. */
  predicate NonBlank(v: Option<string>) {
    v.Some? && v.value != [] && Trim(v.value) != []
  }

  /**
   * The test the provided `coverURL` must pass to be used as it is. Of its seven
   * tests, the blank test and the three literals never decide anything: only the
   * `http` prefix and the words `error` and `failed` do.
   */
  predicate UsableCoverUrl(u: Option<string>): (usable: bool)
    ensures usable <==>
      u.Some? && StartsWith(u.value, "http")
      && !Contains(ToLower(u.value), "error") && !Contains(ToLower(u.value), "failed")
  {
    var usable :=
      && NonBlank(u)
      && StartsWith(u.value, "http")
      && !Contains(ToLower(u.value), "error")
      && !Contains(ToLower(u.value), "failed")
      && u.value != "No Cover Available"
      && u.value != "Not Found"
      && u.value != "Fetch Error";
    if u.Some? && StartsWith(u.value, "http") then
      HttpPrefixPassesOtherTests(u.value);
      usable
    else usable
  }

  const OpenLibraryCovers := "https://covers.openlibrary.org/b/"

  /** The Open Library cover of medium size for an identifier of the given kind (`olid` or `isbn`). */
  function CoverServiceUrl(kind: string, id: string): (url: string)
    ensures StartsWith(url, "http")
  {
    var url := OpenLibraryCovers + kind + "/" + id + "-M.jpg";
    assert url[..4] == OpenLibraryCovers[..4];
    url
  }

  /** `getReviewCoverUrl`: the provided URL, else one built from the OLID, else from the ISBN, else `''`. */
  function ReviewCoverUrl(r: CoverSource): (url: string)
    ensures url == [] || StartsWith(url, "http")
    ensures url == [] <==> !UsableCoverUrl(r.coverURL) && !NonBlank(r.olid) && !NonBlank(r.isbn)
  {
    if UsableCoverUrl(r.coverURL) then r.coverURL.value
    else if NonBlank(r.olid) then CoverServiceUrl("olid", r.olid.value)
    else if NonBlank(r.isbn) then CoverServiceUrl("isbn", r.isbn.value)
    else ""
  }

  /** A usable provided URL wins over everything else, verbatim. */
  lemma UsableCoverUrlWins(r: CoverSource)
    requires UsableCoverUrl(r.coverURL)
    ensures ReviewCoverUrl(r) == r.coverURL.value
  {
  }

  /** A rejected provided URL plays no part: the result is what the OLID and ISBN give. */
  lemma RejectedCoverUrlIgnored(r: CoverSource)
    requires !UsableCoverUrl(r.coverURL)
    ensures ReviewCoverUrl(r) == ReviewCoverUrl(r.(coverURL := None))
  {
  }

  /** The OLID is tried before the ISBN, whatever the ISBN is. */
  lemma OlidBeforeIsbn(r: CoverSource)
    requires !UsableCoverUrl(r.coverURL) && NonBlank(r.olid)
    ensures ReviewCoverUrl(r) == CoverServiceUrl("olid", r.olid.value)
  {
  }

  lemma IsbnLast(r: CoverSource)
    requires !UsableCoverUrl(r.coverURL) && !NonBlank(r.olid) && NonBlank(r.isbn)
    ensures ReviewCoverUrl(r) == CoverServiceUrl("isbn", r.isbn.value)
  {
  }

  /** A URL that starts with `http` is not blank and is none of the three literals. */
  lemma HttpPrefixPassesOtherTests(u: string)
    requires StartsWith(u, "http")
    ensures NonBlank(Some(u))
    ensures u != "No Cover Available" && u != "Not Found" && u != "Fetch Error"
  {
    assert u[0] == 'h';
    TrimKeeps(u);
    assert !IsWhitespace(u[0]);
  }

  /** The card of a review as `parseCSVToLeaderboard` builds it: no `coverURL`, no `olid`. */
  function ParsedReviewSource(rv: Review): CoverSource {
    CoverSource(None, None, Some(rv.isbn))
  }

  /** A digit string is blank only when it is empty. */
  lemma DigitsBlankOnlyWhenEmpty(s: string)
    requires AllDigits(s)
    ensures Trim(s) == [] <==> s == []
  {
    TrimKeeps(s);
    if s != [] {
      assert !IsWhitespace(s[0]);
    }
  }

  /** For a parsed review the cover is the ISBN cover when the URL gave an ISBN, and none otherwise. */
  lemma ParsedReviewCover(rv: Review)
    requires AllDigits(rv.isbn)
    ensures ReviewCoverUrl(ParsedReviewSource(rv)) == if rv.isbn != [] then CoverServiceUrl("isbn", rv.isbn) else ""
  {
    DigitsBlankOnlyWhenEmpty(rv.isbn);
  }

  /** The card of a review parsed from a sheet row shows the ISBN cover exactly when the row's cover URL has an ISBN match. */
  lemma ParsedRowCover(row: seq<string>)
    requires IsPublished(row) && EntryOf(row).review.Some?
    ensures var url := row[CoverCol];
      ReviewCoverUrl(ParsedReviewSource(EntryOf(row).review.value))
      == if forall q, tok :: !CoverUrl.MatchAt(url, q, CoverUrl.IsbnTag, CoverUrl.Digits, tok) then ""
         else CoverServiceUrl("isbn", CoverUrl.ExtractIsbn(url))
  {
    var rv := EntryOf(row).review.value;
    assert rv.isbn == CoverUrl.ExtractIsbn(row[CoverCol]);
    ParsedReviewCover(rv);
    CoverUrl.IsbnEmptyIffNoMatch(row[CoverCol]);
  }

  // ------------------------------------------------------------ leaderboard order

  predicate NonIncreasing(ps: seq<Participant>) {
    forall i, j :: 0 <= i < j < |ps| ==> ps[i].booksRead >= ps[j].booksRead
  }

  /** The participants with exactly `k` books, in order. */
  function WithCount(ps: seq<Participant>, k: nat): seq<Participant> {
    if ps == [] then [] else (if ps[0].booksRead == k then [ps[0]] else []) + WithCount(ps[1..], k)
  }

  /** Places `p` before the first participant with no more books than it has. */
  function InsertByBooks(p: Participant, s: seq<Participant>): seq<Participant> {
    if s == [] || s[0].booksRead <= p.booksRead then [p] + s
    else [s[0]] + InsertByBooks(p, s[1..])
  }

  /**
   * `[...data].sort((a, b) => b.booksRead - a.booksRead)`, which is a stable sort:
   * the result is non-increasing in books read, a permutation of the input, and
   * keeps the participants of each count in input order.
   */
  function SortByBooksRead(ps: seq<Participant>): (r: seq<Participant>)
    ensures NonIncreasing(r)
    ensures multiset(r) == multiset(ps)
    ensures forall k :: WithCount(r, k) == WithCount(ps, k)
  {
    if ps == [] then []
    else
      var rest := SortByBooksRead(ps[1..]);
      InsertSortsOneMore(ps[0], rest, ps[1..]);
      assert [ps[0]] + ps[1..] == ps;
      InsertByBooks(ps[0], rest)
  }

  lemma {:induction false} InsertKeepsNonIncreasing(p: Participant, s: seq<Participant>)
    requires NonIncreasing(s)
    ensures NonIncreasing(InsertByBooks(p, s))
    ensures InsertByBooks(p, s) != [] && (InsertByBooks(p, s)[0] == p || InsertByBooks(p, s)[0] == s[0])
  {
    if s != [] && s[0].booksRead > p.booksRead {
      var tail := InsertByBooks(p, s[1..]);
      InsertKeepsNonIncreasing(p, s[1..]);
      var r := [s[0]] + tail;
      forall i, j | 0 <= i < j < |r| ensures r[i].booksRead >= r[j].booksRead {
        if i == 0 && j > 1 {
          assert r[j] == tail[j - 1];
          assert tail[0].booksRead >= tail[j - 1].booksRead;
        }
      }
    }
  }

  lemma {:induction false} InsertAddsOne(p: Participant, s: seq<Participant>)
    ensures multiset(InsertByBooks(p, s)) == multiset(s) + multiset{p}
  {
    if s != [] && s[0].booksRead > p.booksRead {
      InsertAddsOne(p, s[1..]);
      assert s == [s[0]] + s[1..];
    }
  }

  lemma {:induction false} InsertKeepsTies(p: Participant, s: seq<Participant>, k: nat)
    ensures WithCount(InsertByBooks(p, s), k) == (if p.booksRead == k then [p] else []) + WithCount(s, k)
  {
    var x := if p.booksRead == k then [p] else [];
    if s != [] && s[0].booksRead > p.booksRead {
      var tail := InsertByBooks(p, s[1..]);
      var y := if s[0].booksRead == k then [s[0]] else [];
      InsertKeepsTies(p, s[1..], k);
      assert WithCount(tail, k) == x + WithCount(s[1..], k);
      var r := [s[0]] + tail;
      assert r[0] == s[0] && r[1..] == tail;
      assert WithCount(r, k) == y + WithCount(tail, k);
      assert WithCount(s, k) == y + WithCount(s[1..], k);
      if p.booksRead == k {
        assert s[0].booksRead != k;
      }
    } else {
      var r := [p] + s;
      assert r[0] == p && r[1..] == s;
      assert WithCount(r, k) == x + WithCount(s, k);
    }
  }

  /** Inserting one more participant into a sorted copy of `tail` gives a sorted copy of `[p] + tail`. */
  lemma InsertSortsOneMore(p: Participant, rest: seq<Participant>, tail: seq<Participant>)
    requires NonIncreasing(rest) && multiset(rest) == multiset(tail)
    requires forall k :: WithCount(rest, k) == WithCount(tail, k)
    ensures NonIncreasing(InsertByBooks(p, rest))
    ensures multiset(InsertByBooks(p, rest)) == multiset([p] + tail)
    ensures forall k :: WithCount(InsertByBooks(p, rest), k) == WithCount([p] + tail, k)
  {
    InsertKeepsNonIncreasing(p, rest);
    InsertAddsOne(p, rest);
    var whole := [p] + tail;
    assert whole[0] == p && whole[1..] == tail;
    forall k ensures WithCount(InsertByBooks(p, rest), k) == WithCount(whole, k) {
      InsertKeepsTies(p, rest, k);
    }
  }

  lemma WithCountHead(s: seq<Participant>)
    requires s != []
    ensures WithCount(s, s[0].booksRead) != [] && WithCount(s, s[0].booksRead)[0] == s[0]
  {
  }

  /** In a non-increasing list no participant has more books than the first. */
  lemma {:induction false} WithCountAboveHead(s: seq<Participant>, k: nat)
    requires NonIncreasing(s) && s != [] && k > s[0].booksRead
    ensures WithCount(s, k) == []
  {
    if |s| > 1 {
      WithCountAboveHead(s[1..], k);
    }
  }

  /** Two non-increasing lists with the same participants of each count, in the same order, are equal. */
  lemma {:induction false} StableOrderIsUnique(a: seq<Participant>, b: seq<Participant>)
    requires NonIncreasing(a) && NonIncreasing(b)
    requires forall k :: WithCount(a, k) == WithCount(b, k)
    ensures a == b
    decreases |a| + |b|
  {
    if a == [] && b != [] {
      WithCountHead(b);
      assert false;
    } else if a != [] && b == [] {
      WithCountHead(a);
      assert false;
    } else if a != [] {
      var ka, kb := a[0].booksRead, b[0].booksRead;
      WithCountHead(a);
      WithCountHead(b);
      if ka > kb {
        WithCountAboveHead(b, ka);
        assert false;
      } else if kb > ka {
        WithCountAboveHead(a, kb);
        assert false;
      } else {
        assert a[0] == b[0];
        forall k ensures WithCount(a[1..], k) == WithCount(b[1..], k) {
          var x := if ka == k then [a[0]] else [];
          assert WithCount(a, k) == x + WithCount(a[1..], k);
          assert WithCount(b, k) == x + WithCount(b[1..], k);
          assert WithCount(a[1..], k) == WithCount(a, k)[|x|..];
          assert WithCount(b[1..], k) == WithCount(b, k)[|x|..];
        }
        StableOrderIsUnique(a[1..], b[1..]);
        assert a == [a[0]] + a[1..] && b == [b[0]] + b[1..];
      }
    }
  }

  /** Any order that is non-increasing and keeps ties in input order is the leaderboard order. */
  lemma SortIsTheStableSort(ps: seq<Participant>, r: seq<Participant>)
    requires NonIncreasing(r)
    requires forall k :: WithCount(r, k) == WithCount(ps, k)
    ensures r == SortByBooksRead(ps)
  {
    StableOrderIsUnique(r, SortByBooksRead(ps));
  }

  // ------------------------------------------------------------ statistics

  datatype Stats = Stats(totalParticipants: nat, totalBooks: nat, avgBooks: nat)

  /** `Math.round(total / n)` for `n > 0`: the nearest integer, halves rounded up. */
  function RoundedAverage(total: nat, n: nat): (avg: nat)
    requires n > 0
    ensures (2 * avg - 1) * n <= 2 * total < (2 * avg + 1) * n
  {
    var q := (2 * total + n) / (2 * n);
    assert 2 * n * q <= 2 * total + n < 2 * n * q + 2 * n;
    q
  }

  /** `updateStats(data)`. */
  function StatsOf(data: seq<Participant>): (s: Stats)
    ensures s.totalParticipants == |data| && s.totalBooks == SumBooksRead(data)
    ensures data == [] ==> s.avgBooks == 0
    ensures data != [] ==> (2 * s.avgBooks - 1) * |data| <= 2 * s.totalBooks < (2 * s.avgBooks + 1) * |data|
  {
    var n := |data|;
    var total := SumBooksRead(data);
    Stats(n, total, if n > 0 then RoundedAverage(total, n) else 0)
  }

  lemma SumBooksReadCons(p: Participant, s: seq<Participant>)
    ensures SumBooksRead([p] + s) == p.booksRead + SumBooksRead(s)
    decreases |s|
  {
    if s != [] {
      var init := s[..|s| - 1];
      assert ([p] + s)[..|s|] == [p] + init;
      SumBooksReadCons(p, init);
    }
  }

  lemma {:induction false} SumBooksReadOfInsert(p: Participant, s: seq<Participant>)
    ensures SumBooksRead(InsertByBooks(p, s)) == p.booksRead + SumBooksRead(s)
  {
    if s == [] || s[0].booksRead <= p.booksRead {
      SumBooksReadCons(p, s);
    } else {
      SumBooksReadOfInsert(p, s[1..]);
      SumBooksReadCons(s[0], InsertByBooks(p, s[1..]));
      SumBooksReadCons(s[0], s[1..]);
      assert s == [s[0]] + s[1..];
    }
  }

  /** The statistics do not depend on the order: the sorted leaderboard has the same ones. */
  lemma {:induction false} SortKeepsSum(ps: seq<Participant>)
    ensures SumBooksRead(SortByBooksRead(ps)) == SumBooksRead(ps)
  {
    if ps != [] {
      SortKeepsSum(ps[1..]);
      SumBooksReadOfInsert(ps[0], SortByBooksRead(ps[1..]));
      SumBooksReadCons(ps[0], ps[1..]);
      assert ps == [ps[0]] + ps[1..];
    }
  }

  /** The statistics depend only on the number of participants and the sum of their books. */
  lemma StatsOfSameTotals(a: seq<Participant>, b: seq<Participant>)
    requires |a| == |b| && SumBooksRead(a) == SumBooksRead(b)
    ensures StatsOf(a) == StatsOf(b)
  {
  }

  lemma StatsIgnoreOrder(ps: seq<Participant>)
    ensures StatsOf(SortByBooksRead(ps)) == StatsOf(ps)
  {
    var r := SortByBooksRead(ps);
    assert |r| == |ps| by {
      assert |multiset(r)| == |multiset(ps)|;
    }
    SortKeepsSum(ps);
    StatsOfSameTotals(r, ps);
  }

  /** For a parsed sheet: one participant per distinct email, and as many books as published rows. */
  lemma StatsOfParsedSheet(csvText: string)
    requires LeaderboardOf(csvText).Ok?
    ensures var es := PublishedEntries(DataRows(csvText));
      var s := StatsOf(LeaderboardOf(csvText).value.participants);
      s.totalParticipants == |Emails(es)| && s.totalBooks == |es|
  {
    LeaderboardIsReference(csvText);
    BooksReadSumsToPublishedRows(csvText);
  }

  // ------------------------------------------------------------ participant label

  /** The variable parts of `<name> [- <status>] - <n> challenge(s) completed`. */
  datatype Label = Label(name: string, status: Option<string>, count: nat, noun: string)

  function LabelOf(p: Participant): (l: Label)
    ensures l.name == p.name && l.count == p.booksRead
    ensures l.noun == "challenge" <==> p.booksRead == 1
    ensures l.noun == "challenge" || l.noun == "challenges"
    ensures l.status.Some? <==> p.status != []
    ensures l.status.Some? ==> l.status.value == p.status
  {
    Label(p.name, if p.status != [] then Some(p.status) else None, p.booksRead,
          if p.booksRead == 1 then "challenge" else "challenges")
  }

  lemma LabelOfReferenceParticipant(es: seq<Entry>, i: nat)
    requires i < |Emails(es)|
    ensures var group := EntriesFor(es, Emails(es)[i]);
      var l := LabelOf(ReferenceParticipants(es)[i]);
      && group != []
      && (l.noun == "challenge" <==> |group| == 1)
      && (l.status.Some? <==> group[0].status != [])
  {
    EmailsAreTheEmailsWithEntries(es);
    assert Emails(es)[i] in Emails(es);
  }

  /**
   * On a parsed sheet a participant reads "challenge" exactly when its email has
   * one published row, and shows a status exactly when its first published row has one.
   */
  lemma LabelOfParsedParticipant(csvText: string, i: nat)
    requires LeaderboardOf(csvText).Ok?
    requires i < |LeaderboardOf(csvText).value.participants|
    ensures var es := PublishedEntries(DataRows(csvText));
      && i < |Emails(es)|
      && var group := EntriesFor(es, Emails(es)[i]);
        var l := LabelOf(LeaderboardOf(csvText).value.participants[i]);
        && group != []
        && (l.noun == "challenge" <==> |group| == 1)
        && (l.status.Some? <==> group[0].status != [])
  {
    var es := PublishedEntries(DataRows(csvText));
    LeaderboardIsReference(csvText);
    var ps := LeaderboardOf(csvText).value.participants;
    assert ps == ReferenceParticipants(es);
    LabelOfReferenceParticipant(es, i);
    assert ps[i] == ReferenceParticipants(es)[i];
  }
}
