/**
 * `parseCSVToLeaderboard` (data.js): from the exported sheet to the leaderboard.
 * The text is trimmed and split into lines; line 0 is the header and is not
 * used. Each later line is split into fields; only rows whose column 11 reads
 * TRUE (in any case) are kept. Kept rows are grouped by the email in column 1:
 * the first row of an email creates its participant (name and status from that
 * row), every row adds one book and one to its count. A row with at least four
 * stars and a non-blank review also yields a review.
 */
module Leaderboard {
  import opened Wrappers
  import opened JsString
  import CsvRow
  import Challenge
  import CoverUrl

  datatype Book = Book(title: string, olid: string, challenge: string, coverURL: string, catalogURL: Option<string>)

  datatype Participant = Participant(name: string, booksRead: nat, books: seq<Book>, status: string)

  datatype Review = Review(title: string, author: string, isbn: string, description: string)

  /** The `{participants, reviews}` value the parser returns. */
  datatype Board = Board(participants: seq<Participant>, reviews: seq<Review>)

  const EmailCol := 1
  const NameCol := 2
  const ChallengeCol := 3
  const TitleCol := 4
  const AuthorCol := 5
  const StarsCol := 6
  const ReviewCol := 7
  const CoverCol := 8
  const CatalogCol := 9
  const StatusCol := 10
  const PublishCol := 11

  /** `row[11] && row[11].toString().toUpperCase() === 'TRUE'`. */
  predicate IsPublished(row: seq<string>) {
    |row| > PublishCol && ToUpper(row[PublishCol]) == "TRUE"
  }

  /** The columns of a published row, by name (a published row has all twelve). */
  datatype Columns = Columns(
    email: string, name: string, challenge: string, title: string, author: string,
    stars: string, review: string, coverURL: string, catalogURL: string, status: string)

  function ColumnsOf(row: seq<string>): Columns
    requires |row| > PublishCol
  {
    Columns(row[EmailCol], row[NameCol], row[ChallengeCol], row[TitleCol], row[AuthorCol],
            row[StarsCol], row[ReviewCol], row[CoverCol], row[CatalogCol], row[StatusCol])
  }

  /** `parseInt(stars) || 0`: NaN counts as zero. */
  function Stars(text: string): int {
    match ParseInt(text)
    case Some(v) => v
    case None => 0
  }

  /** `stars >= 4 && review && review.trim()`. */
  predicate QualifiesForReview(c: Columns) {
    Stars(c.stars) >= 4 && Trim(c.review) != []
  }

  /** The flag is compared without regard to case, and nothing else is accepted: no padding, no other word. */
  lemma PublishedIffFlagIsTrue(row: seq<string>)
    ensures IsPublished(row) <==>
      && |row| > PublishCol && |row[PublishCol]| == 4
      && row[PublishCol][0] in "tT" && row[PublishCol][1] in "rR"
      && row[PublishCol][2] in "uU" && row[PublishCol][3] in "eE"
  {
    if |row| > PublishCol && |row[PublishCol]| == 4 {
      var f := row[PublishCol];
      UpperCharIs(f[0], 'T');
      UpperCharIs(f[1], 'R');
      UpperCharIs(f[2], 'U');
      UpperCharIs(f[3], 'E');
      assert ToUpper(f) == [UpperChar(f[0]), UpperChar(f[1]), UpperChar(f[2]), UpperChar(f[3])];
    }
  }

  lemma UpperCharIs(c: char, u: char)
    requires IsAsciiUpper(u)
    ensures UpperChar(c) == u <==> c == u || c as int == u as int + 32
  {
  }

  /** A rating written in digits counts as that number, whatever non-numeric text follows it. */
  lemma StarsOfRating(k: nat, rest: string)
    requires rest == [] || (!IsAsciiDigit(rest[0]) && rest[0] != 'x' && rest[0] != 'X')
    ensures Stars(NatToString(k) + rest) == k
  {
    ParseIntOfNatToStringThen(k, rest);
  }

  /** Text that `parseInt` reads as NaN counts as zero stars. */
  lemma StarsOfNonNumber(text: string)
    requires forall i :: 0 <= i < |text| ==> !IsAsciiDigit(text[i])
    ensures Stars(text) == 0
  {
    var t := TrimStart(text);
    TrimStartDropsWhitespace(text);
    var u := AfterSign(t);
    assert forall i :: 0 <= i < |u| ==> !IsAsciiDigit(u[i]) by {
      assert t == text[|text| - |t|..];
      assert u == t || u == t[1..];
    }
    assert !HasHexPrefix(u);
    assert DigitPrefix(AfterRadixPrefix(u), HasHexPrefix(u)) == [];
  }

  /** A row qualifies for a review when it has at least four stars and a review that is not all whitespace. */
  lemma QualifiesIffNotBlank(c: Columns)
    ensures QualifiesForReview(c) <==> Stars(c.stars) >= 4 && !AllWhitespace(c.review)
  {
    TrimKeeps(c.review);
  }

  /**
   * The description starts with the trimmed review and ends with the name, and
   * `parseInt` reads the rating back from the text after the `" - "`.
   */
  lemma DescriptionReadsBack(c: Columns)
    requires QualifiesForReview(c)
    ensures var d, t := Description(c), Trim(c.review);
      && d[..|t|] == t && d[|t|..|t| + 3] == " - "
      && ParseInt(d[|t| + 3..]) == Some(Stars(c.stars))
      && d[|d| - |c.name|..] == c.name
  {
    var n: nat := Stars(c.stars);
    var d, t, k := Description(c), Trim(c.review), NatToString(n);
    var rest := " Stars from " + c.name;
    assert d == t + " - " + k + " Stars from " + c.name;
    DescriptionShape(t, k, c.name);
    assert d[|t| + 3..] == k + rest;
    ParseIntOfNatToStringThen(n, rest);
    assert ParseInt(d[|t| + 3..]) == Some(n);
  }

  /** Where the parts of a description sit in it. */
  lemma DescriptionShape(t: string, k: string, name: string)
    ensures var d := t + " - " + k + " Stars from " + name;
      && d[..|t|] == t && d[|t|..|t| + 3] == " - "
      && d[|t| + 3..] == k + (" Stars from " + name)
      && d[|d| - |name|..] == name
  {
    var d := t + " - " + k + " Stars from " + name;
    var rest := " Stars from " + name;
    var after := " - " + (k + rest);
    assert d == t + after by {
      ConcatAssociates(t, " - ", k + rest);
      ConcatAssociates(t + " - ", k, rest);
      ConcatAssociates(t + " - " + k, " Stars from ", name);
    }
    assert d[..|t|] == t && d[|t|..] == after;
    assert d[|t|..|t| + 3] == after[..3] == " - ";
    assert d[|t| + 3..] == after[3..] == k + rest;
  }

  /** The book a row adds to its participant. */
  function BookOf(c: Columns): (b: Book)
    ensures b.title == c.title && b.coverURL == c.coverURL
    ensures b.olid == CoverUrl.ExtractOlid(c.coverURL) && b.olid != []
    ensures b.challenge == Challenge.ExpandChallenge(c.challenge)
    ensures b.catalogURL.Some? <==> StartsWith(c.catalogURL, "http")
    ensures b.catalogURL.Some? ==> b.catalogURL.value == c.catalogURL
  {
    Book(c.title, CoverUrl.ExtractOlid(c.coverURL), Challenge.ExpandChallenge(c.challenge), c.coverURL,
         if c.catalogURL != [] && StartsWith(c.catalogURL, "http") then Some(c.catalogURL) else None)
  }

  /** `"<trimmed review> - <stars> Stars from <name>"`. */
  function Description(c: Columns): string
    requires QualifiesForReview(c)
  {
    Trim(c.review) + " - " + NatToString(Stars(c.stars)) + " Stars from " + c.name
  }

  /** The review a qualifying row adds. */
  function ReviewOf(c: Columns): (r: Review)
    requires QualifiesForReview(c)
    ensures r.title == c.title && r.author == c.author
    ensures r.isbn == CoverUrl.ExtractIsbn(c.coverURL) && AllDigits(r.isbn)
    ensures r.description == Description(c)
  {
    Review(c.title, c.author, CoverUrl.ExtractIsbn(c.coverURL), Description(c))
  }

  /** What one published row contributes: its email, name and status, one book, maybe one review. */
  datatype Entry = Entry(email: string, name: string, status: string, book: Book, review: Option<Review>)

  function EntryOf(row: seq<string>): (e: Entry)
    requires |row| > PublishCol
  {
    var c := ColumnsOf(row);
    Entry(c.email, c.name, c.status, BookOf(c), if QualifiesForReview(c) then Some(ReviewOf(c)) else None)
  }

  /**
   * Keys for which `participants[email]` is already truthy on a fresh object
   * literal: the properties of `Object.prototype`. For them the code skips
   * creating the participant and then calls `.books.push` on undefined, which
   * throws a TypeError out of the whole parse.
   */
  const InheritedKeys: set<string> := {
    "constructor", "hasOwnProperty", "isPrototypeOf", "propertyIsEnumerable", "toString",
    "valueOf", "toLocaleString", "__proto__", "__defineGetter__", "__defineSetter__",
    "__lookupGetter__", "__lookupSetter__"}

  // ------------------------------------------------------------ the grouping loop

  /** The `participants` dictionary with its insertion order, and the `reviews` list. */
  datatype Tally = Tally(byEmail: map<string, Participant>, order: seq<string>, reviews: seq<Review>)

  const EmptyTally := Tally(map[], [], [])

  /** Every key is listed once in the order, and each participant's count is its number of books. */
  ghost predicate WellFormed(t: Tally) {
    && (forall e :: e in t.byEmail <==> e in t.order)
    && (forall i, j :: 0 <= i < j < |t.order| ==> t.order[i] != t.order[j])
    && (forall e :: e in t.byEmail ==> t.byEmail[e].booksRead == |t.byEmail[e].books|)
  }

  /** `booksRead++` and `books.push(book)` on one participant. */
  function WithBook(p: Participant, b: Book): (r: Participant)
    ensures r.books == p.books + [b] && r.booksRead == p.booksRead + 1
    ensures r.name == p.name && r.status == p.status
  {
    p.(booksRead := p.booksRead + 1, books := p.books + [b])
  }

  /** One published row in the loop body; `Err` carries the email that makes it throw. */
  function AddEntry(t: Tally, e: Entry): (r: Result<Tally, string>)
    ensures r.Err? <==> e.email in InheritedKeys
  {
    if e.email in InheritedKeys then Err(e.email)
    else
      var isNew := e.email !in t.byEmail;
      var p := if isNew then Participant(e.name, 0, [], e.status) else t.byEmail[e.email];
      var p' := WithBook(p, e.book);
      var order := if isNew then t.order + [e.email] else t.order;
      var reviews := if e.review.Some? then t.reviews + [e.review.value] else t.reviews;
      Ok(Tally(t.byEmail[e.email := p'], order, reviews))
  }

  lemma AddEntryKeepsWellFormed(t: Tally, e: Entry)
    requires WellFormed(t)
    ensures AddEntry(t, e).Ok? ==> WellFormed(AddEntry(t, e).value)
  {
    if e.email in InheritedKeys {
    } else if e.email !in t.byEmail {
      var t' := AddEntry(t, e).value;
      assert t'.order == t.order + [e.email];
      forall i, j | 0 <= i < j < |t'.order| ensures t'.order[i] != t'.order[j] {
        if j == |t.order| {
          assert t.order[i] in t.byEmail;
        }
      }
    }
  }

  /** `AddEntry` on an entry that does not throw, spelled out field by field. */
  lemma AddEntryOk(t: Tally, e: Entry, current: Participant, order: seq<string>, reviews: seq<Review>)
    requires e.email !in InheritedKeys
    requires current == if e.email in t.byEmail then t.byEmail[e.email] else Participant(e.name, 0, [], e.status)
    requires order == if e.email in t.byEmail then t.order else t.order + [e.email]
    requires reviews == if e.review.Some? then t.reviews + [e.review.value] else t.reviews
    ensures AddEntry(t, e) == Ok(Tally(t.byEmail[e.email := WithBook(current, e.book)], order, reviews))
  {
  }

  /** The published rows, as entries, in row order. */
  function PublishedEntries(rows: seq<seq<string>>): seq<Entry> {
    if rows == [] then []
    else
      var last := rows[|rows| - 1];
      PublishedEntries(rows[..|rows| - 1]) + (if IsPublished(last) then [EntryOf(last)] else [])
  }

  /** The loop over the published entries; the first throwing entry ends it. */
  function AggregateEntries(es: seq<Entry>): (r: Result<Tally, string>)
    ensures r.Ok? ==> WellFormed(r.value)
  {
    if es == [] then Ok(EmptyTally)
    else
      match AggregateEntries(es[..|es| - 1])
      case Err(x) => Err(x)
      case Ok(t) =>
        AddEntryKeepsWellFormed(t, es[|es| - 1]);
        AddEntry(t, es[|es| - 1])
  }

  /** Each line split into fields. */
  function FieldsOfLines(lines: seq<string>): (rows: seq<seq<string>>)
    ensures |rows| == |lines|
    ensures forall i :: 0 <= i < |lines| ==> rows[i] == CsvRow.Fields(lines[i])
  {
    seq(|lines|, i requires 0 <= i < |lines| => CsvRow.Fields(lines[i]))
  }

  /** `csvText.trim().split('\n')` without line 0 (the header), each line split into fields. */
  function DataRows(csvText: string): seq<seq<string>> {
    FieldsOfLines(Split(Trim(csvText), '\n')[1..])
  }

  /** `Object.values(participants)`: the participants in the order their emails first appeared. */
  function ParticipantsOf(t: Tally): (ps: seq<Participant>)
    requires WellFormed(t)
    ensures |ps| == |t.order|
    ensures forall i :: 0 <= i < |ps| ==> ps[i] == t.byEmail[t.order[i]]
    ensures forall i :: 0 <= i < |ps| ==> ps[i].booksRead == |ps[i].books|
  {
    seq(|t.order|, i requires 0 <= i < |t.order| => t.byEmail[t.order[i]])
  }

  /** What `parseCSVToLeaderboard` returns, or the email of the row that makes it throw. */
  function LeaderboardOf(csvText: string): (r: Result<Board, string>)
    ensures r.Ok? ==> forall i :: 0 <= i < |r.value.participants| ==>
      r.value.participants[i].booksRead == |r.value.participants[i].books|
  {
    match AggregateEntries(PublishedEntries(DataRows(csvText)))
    case Err(x) => Err(x)
    case Ok(t) => Ok(Board(ParticipantsOf(t), t.reviews))
  }

  lemma {:induction false} PublishedEntriesAppend(a: seq<seq<string>>, b: seq<seq<string>>)
    ensures PublishedEntries(a + b) == PublishedEntries(a) + PublishedEntries(b)
  {
    if b == [] {
      assert a + b == a;
    } else {
      assert (a + b)[..|a + b| - 1] == a + b[..|b| - 1];
      PublishedEntriesAppend(a, b[..|b| - 1]);
    }
  }

  /** A row that is not marked for publication has no effect at all, wherever it stands. */
  lemma UnpublishedRowIgnored(a: seq<seq<string>>, r: seq<string>, b: seq<seq<string>>)
    requires !IsPublished(r)
    ensures PublishedEntries(a + [r] + b) == PublishedEntries(a + b)
  {
    PublishedEntriesAppend(a + [r], b);
    PublishedEntriesAppend(a, [r]);
    PublishedEntriesAppend(a, b);
    assert [r][..0] == [];
    assert PublishedEntries([r]) == [];
    assert PublishedEntries(a) + [] == PublishedEntries(a);
  }

  lemma {:induction false} ErrPersists(es: seq<Entry>, more: seq<Entry>)
    requires AggregateEntries(es).Err?
    ensures AggregateEntries(es + more) == AggregateEntries(es)
  {
    if more == [] {
      assert es + more == es;
    } else {
      assert (es + more)[..|es + more| - 1] == es + more[..|more| - 1];
      ErrPersists(es, more[..|more| - 1]);
    }
  }

  lemma PublishedEntriesStep(rows: seq<seq<string>>, i: nat)
    requires 1 <= i <= |rows|
    ensures IsPublished(rows[i - 1]) ==>
      PublishedEntries(rows[..i]) == PublishedEntries(rows[..i - 1]) + [EntryOf(rows[i - 1])]
    ensures !IsPublished(rows[i - 1]) ==> PublishedEntries(rows[..i]) == PublishedEntries(rows[..i - 1])
  {
    assert rows[..i][..i - 1] == rows[..i - 1];
    if !IsPublished(rows[i - 1]) {
      assert PublishedEntries(rows[..i]) == PublishedEntries(rows[..i - 1]) + [];
    }
  }

  lemma AggregateAppend(es: seq<Entry>, x: Entry, t: Tally)
    requires AggregateEntries(es) == Ok(t)
    ensures AggregateEntries(es + [x]) == AddEntry(t, x)
  {
    assert (es + [x])[..|es|] == es;
  }

  /** One more row: the loop state after it, in terms of the state before it. */
  lemma AggregateStep(rows: seq<seq<string>>, i: nat, t: Tally)
    requires 1 <= i <= |rows|
    requires AggregateEntries(PublishedEntries(rows[..i - 1])) == Ok(t)
    ensures AggregateEntries(PublishedEntries(rows[..i]))
      == if IsPublished(rows[i - 1]) then AddEntry(t, EntryOf(rows[i - 1])) else Ok(t)
  {
    PublishedEntriesStep(rows, i);
    if IsPublished(rows[i - 1]) {
      AggregateAppend(PublishedEntries(rows[..i - 1]), EntryOf(rows[i - 1]), t);
    }
  }

  /** Once a row throws, the rows after it do not matter. */
  lemma ErrAtRow(rows: seq<seq<string>>, i: nat)
    requires i <= |rows|
    requires AggregateEntries(PublishedEntries(rows[..i])).Err?
    ensures AggregateEntries(PublishedEntries(rows)) == AggregateEntries(PublishedEntries(rows[..i]))
  {
    var a, b := rows[..i], rows[i..];
    assert a + b == rows;
    PublishedEntriesAppend(a, b);
    ErrPersists(PublishedEntries(a), PublishedEntries(b));
  }

  /** The body of the row loop for a published row: find or create the participant, add the book, maybe a review. */
  method AddPublishedRow(t: Tally, row: seq<string>) returns (r: Result<Tally, string>)
    requires IsPublished(row)
    ensures r == AddEntry(t, EntryOf(row))
  {
    var email, name, challengeText := row[EmailCol], row[NameCol], row[ChallengeCol];
    var bookTitle, author, stars := row[TitleCol], row[AuthorCol], Stars(row[StarsCol]);
    var review, coverURL, catalogURL, status := row[ReviewCol], row[CoverCol], row[CatalogCol], row[StatusCol];
    ghost var c := ColumnsOf(row);
    ghost var e := EntryOf(row);
    if email in InheritedKeys {
      return Err(email);
    }
    var participants, order, reviews := t.byEmail, t.order, t.reviews;
    var current := if email in participants then participants[email] else Participant(name, 0, [], status);
    if email !in participants {
      order := order + [email];
    }
    var catalog := if catalogURL != [] && StartsWith(catalogURL, "http") then Some(catalogURL) else None;
    var book := Book(bookTitle, CoverUrl.ExtractOlid(coverURL), Challenge.ExpandChallenge(challengeText), coverURL, catalog);
    assert book == BookOf(c) == e.book;
    participants := participants[email := WithBook(current, book)];
    if stars >= 4 && Trim(review) != [] {
      var description := Trim(review) + " - " + NatToString(stars) + " Stars from " + name;
      reviews := reviews + [Review(bookTitle, author, CoverUrl.ExtractIsbn(coverURL), description)];
      assert e.review == Some(ReviewOf(c));
    } else {
      assert e.review == None;
    }
    AddEntryOk(t, e, current, order, reviews);
    r := Ok(Tally(participants, order, reviews));
  }

  /** One iteration of the row loop: unpublished rows change nothing. */
  method ProcessRow(t: Tally, row: seq<string>) returns (r: Result<Tally, string>)
    ensures r == if IsPublished(row) then AddEntry(t, EntryOf(row)) else Ok(t)
  {
    if IsPublished(row) {
      r := AddPublishedRow(t, row);
    } else {
      r := Ok(t);
    }
  }

  /** The `for` loop over lines 1.. of `parseCSVToLeaderboard`: the fold of the row step over the published rows. */
  method AggregateDataLines(lines: seq<string>) returns (r: Result<Tally, string>)
    requires lines != []
    ensures r == AggregateEntries(PublishedEntries(FieldsOfLines(lines[1..])))
  {
    ghost var rows := FieldsOfLines(lines[1..]);
    var t := EmptyTally;
    var i := 1;
    while i < |lines|
      invariant 1 <= i <= |lines|
      invariant AggregateEntries(PublishedEntries(rows[..i - 1])) == Ok(t)
    {
      var row := CsvRow.ParseCsvRow(lines[i]);
      assert row == rows[i - 1];
      var step := ProcessRow(t, row);
      AggregateStep(rows, i, t);
      if step.Err? {
        ErrAtRow(rows, i);
        return Err(step.error);
      }
      t := step.value;
      i := i + 1;
    }
    assert rows[..i - 1] == rows;
    r := Ok(t);
  }

  method ParseCsvToLeaderboard(csvText: string) returns (res: Result<Board, string>)
    ensures res == LeaderboardOf(csvText)
  {
    var lines := Split(Trim(csvText), '\n');
    var aggregated := AggregateDataLines(lines);
    if aggregated.Err? {
      return Err(aggregated.error);
    }
    var t := aggregated.value;
    res := Ok(Board(ParticipantsOf(t), t.reviews));
  }
}
