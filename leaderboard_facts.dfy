/**
 * What `parseCSVToLeaderboard` computes, stated without the grouping loop:
 * one participant per distinct email in order of first appearance, built from
 * that email's entries alone; the reviews in entry order; a throw exactly when
 * some published email names an inherited property. The lemmas tie the loop
 * (`AggregateEntries`, and so the method) to this description.
 */
module LeaderboardFacts {
  import opened Wrappers
  import opened JsString
  import opened Leaderboard
  import CoverUrl
  import Challenge

  /** The distinct emails of the entries, in order of first appearance. */
  function Emails(es: seq<Entry>): seq<string> {
    if es == [] then []
    else
      var prev := Emails(es[..|es| - 1]);
      var m := es[|es| - 1].email;
      if m in prev then prev else prev + [m]
  }

  /** The entries that carry email `m`, in order. */
  function EntriesFor(es: seq<Entry>, m: string): seq<Entry> {
    if es == [] then []
    else EntriesFor(es[..|es| - 1], m) + (if es[|es| - 1].email == m then [es[|es| - 1]] else [])
  }

  /** One book per entry, in order. */
  function Books(es: seq<Entry>): seq<Book> {
    if es == [] then [] else Books(es[..|es| - 1]) + [es[|es| - 1].book]
  }

  /** The participant the entries of one email describe: name and status of the first, one book each. */
  function ParticipantFrom(group: seq<Entry>): Participant
    requires group != []
  {
    Participant(group[0].name, |group|, Books(group), group[0].status)
  }

  /** The reviews the entries carry, in order. */
  function ReviewsOf(es: seq<Entry>): seq<Review> {
    if es == [] then []
    else
      var e := es[|es| - 1];
      ReviewsOf(es[..|es| - 1]) + (if e.review.Some? then [e.review.value] else [])
  }

  /** Some entry's email names a property every object inherits. */
  predicate HasInheritedKey(es: seq<Entry>) {
    exists i :: 0 <= i < |es| && es[i].email in InheritedKeys
  }

  /** What one published row contributes, column by column. */
  lemma PublishedRowEntry(row: seq<string>)
    requires IsPublished(row)
    ensures var e := EntryOf(row);
      && e.email == row[EmailCol] && e.name == row[NameCol] && e.status == row[StatusCol]
      && e.book.title == row[TitleCol] && e.book.coverURL == row[CoverCol]
      && e.book.olid == CoverUrl.ExtractOlid(row[CoverCol]) && e.book.olid != []
      && e.book.challenge == Challenge.ExpandChallenge(row[ChallengeCol])
      && (e.book.catalogURL.Some? <==> StartsWith(row[CatalogCol], "http"))
      && (e.book.catalogURL.Some? ==> e.book.catalogURL.value == row[CatalogCol])
      && (e.review.Some? <==> Stars(row[StarsCol]) >= 4 && Trim(row[ReviewCol]) != [])
      && (e.review.Some? ==>
            && e.review.value.title == row[TitleCol] && e.review.value.author == row[AuthorCol]
            && e.review.value.isbn == CoverUrl.ExtractIsbn(row[CoverCol]) && AllDigits(e.review.value.isbn)
            && e.review.value.description
               == Trim(row[ReviewCol]) + " - " + NatToString(Stars(row[StarsCol])) + " Stars from " + row[NameCol])
  {
  }

  // ------------------------------------------------------------ the reference on its own

  lemma {:induction false} EmailsAreTheEmailsWithEntries(es: seq<Entry>)
    ensures forall m :: m in Emails(es) <==> EntriesFor(es, m) != []
  {
    if es != [] {
      EmailsAreTheEmailsWithEntries(es[..|es| - 1]);
    }
  }

  lemma {:induction false} EmailsAreDistinct(es: seq<Entry>)
    ensures forall i, j :: 0 <= i < j < |Emails(es)| ==> Emails(es)[i] != Emails(es)[j]
  {
    if es != [] {
      EmailsAreDistinct(es[..|es| - 1]);
    }
  }

  /** The number of entries of the emails in `ms`, email by email. */
  function GroupSizes(ms: seq<string>, es: seq<Entry>): nat {
    if ms == [] then 0 else GroupSizes(ms[..|ms| - 1], es) + |EntriesFor(es, ms[|ms| - 1])|
  }

  lemma {:induction false} GroupSizesStep(ms: seq<string>, es: seq<Entry>, e: Entry)
    requires forall i, j :: 0 <= i < j < |ms| ==> ms[i] != ms[j]
    ensures GroupSizes(ms, es + [e]) == GroupSizes(ms, es) + (if e.email in ms then 1 else 0)
  {
    assert (es + [e])[..|es|] == es;
    if ms != [] {
      var init := ms[..|ms| - 1];
      GroupSizesStep(init, es, e);
      assert e.email in ms <==> e.email in init || e.email == ms[|ms| - 1];
      assert e.email == ms[|ms| - 1] ==> e.email !in init;
    }
  }

  lemma {:induction false} GroupSizesUnchanged(ms: seq<string>, es: seq<Entry>, m: string)
    requires m !in ms
    ensures GroupSizes(ms + [m], es) == GroupSizes(ms, es) + |EntriesFor(es, m)|
  {
    assert (ms + [m])[..|ms|] == ms;
  }

  /** Every entry belongs to exactly one email's group. */
  lemma {:induction false} GroupsPartitionEntries(es: seq<Entry>)
    ensures GroupSizes(Emails(es), es) == |es|
  {
    if es != [] {
      var init := es[..|es| - 1];
      var e := es[|es| - 1];
      assert es == init + [e];
      GroupsPartitionEntries(init);
      EmailsAreDistinct(init);
      GroupSizesStep(Emails(init), init, e);
      if e.email !in Emails(init) {
        GroupSizesUnchanged(Emails(init), es, e.email);
        EmailsAreTheEmailsWithEntries(init);
        assert EntriesFor(es, e.email) == [e];
      }
    }
  }

  // ------------------------------------------------------------ the loop agrees with the reference

  lemma HasInheritedKeyStep(init: seq<Entry>, e: Entry)
    ensures HasInheritedKey(init + [e]) <==> HasInheritedKey(init) || e.email in InheritedKeys
  {
    var es := init + [e];
    if HasInheritedKey(es) {
      var i :| 0 <= i < |es| && es[i].email in InheritedKeys;
      if i < |init| {
        assert init[i] == es[i];
      }
    }
    if HasInheritedKey(init) {
      var i :| 0 <= i < |init| && init[i].email in InheritedKeys;
      assert es[i] == init[i];
    }
    assert es[|init|] == e;
  }

  lemma {:induction false} ErrIffInheritedKey(es: seq<Entry>)
    ensures AggregateEntries(es).Err? <==> HasInheritedKey(es)
  {
    if es != [] {
      var init := es[..|es| - 1];
      assert es == init + [es[|es| - 1]];
      ErrIffInheritedKey(init);
      HasInheritedKeyStep(init, es[|es| - 1]);
    }
  }

  /** A throwing parse reports the email of the first entry that throws. */
  lemma {:induction false} ErrIsFirstInheritedKey(es: seq<Entry>)
    requires AggregateEntries(es).Err?
    ensures exists i :: (0 <= i < |es| && es[i].email == AggregateEntries(es).error
      && es[i].email in InheritedKeys && !HasInheritedKey(es[..i]))
  {
    var init := es[..|es| - 1];
    if AggregateEntries(init).Err? {
      ErrIsFirstInheritedKey(init);
      var i :| 0 <= i < |init| && init[i].email == AggregateEntries(init).error
        && init[i].email in InheritedKeys && !HasInheritedKey(init[..i]);
      assert es[i] == init[i] && es[..i] == init[..i];
    } else {
      ErrIffInheritedKey(init);
      assert es[..|es| - 1] == init;
    }
  }

  lemma EntriesForAppend(es: seq<Entry>, e: Entry, m: string)
    ensures e.email == m ==> EntriesFor(es + [e], m) == EntriesFor(es, m) + [e]
    ensures e.email != m ==> EntriesFor(es + [e], m) == EntriesFor(es, m)
  {
    assert (es + [e])[..|es|] == es;
    assert EntriesFor(es, m) + [] == EntriesFor(es, m);
  }

  lemma EmailsAppend(es: seq<Entry>, e: Entry)
    ensures Emails(es + [e]) == if e.email in Emails(es) then Emails(es) else Emails(es) + [e.email]
  {
    assert (es + [e])[..|es|] == es;
  }

  lemma ReviewsAppend(es: seq<Entry>, e: Entry)
    ensures e.review.Some? ==> ReviewsOf(es + [e]) == ReviewsOf(es) + [e.review.value]
    ensures e.review.None? ==> ReviewsOf(es + [e]) == ReviewsOf(es)
  {
    assert (es + [e])[..|es|] == es;
    assert ReviewsOf(es) + [] == ReviewsOf(es);
  }

  /** One more entry of an email adds one book to its participant. */
  lemma ParticipantFromAppend(g: seq<Entry>, e: Entry)
    requires g != []
    ensures ParticipantFrom(g + [e]) == WithBook(ParticipantFrom(g), e.book)
  {
    assert (g + [e])[..|g|] == g;
    assert Books(g + [e]) == Books(g) + [e.book];
    assert (g + [e])[0] == g[0];
  }

  lemma ParticipantFromSingle(e: Entry)
    ensures ParticipantFrom([e]) == WithBook(Participant(e.name, 0, [], e.status), e.book)
  {
    assert [e][..0] == [];
    assert Books([e]) == [] + [e.book] == [e.book];
    assert [] + [e.book] == [e.book];
  }

  /** The tally after an entry, in the reference's terms, from the tally before it. */
  lemma AddEntryAgrees(es: seq<Entry>, e: Entry, t: Tally)
    requires WellFormed(t) && e.email !in InheritedKeys
    requires t.order == Emails(es) && t.reviews == ReviewsOf(es)
    requires forall m :: m in t.byEmail <==> EntriesFor(es, m) != []
    requires forall m :: m in t.byEmail ==> t.byEmail[m] == ParticipantFrom(EntriesFor(es, m))
    ensures var t' := AddEntry(t, e).value; var es' := es + [e];
      && t'.order == Emails(es') && t'.reviews == ReviewsOf(es')
      && (forall m :: m in t'.byEmail <==> EntriesFor(es', m) != [])
      && (forall m :: m in t'.byEmail ==> t'.byEmail[m] == ParticipantFrom(EntriesFor(es', m)))
  {
    var es' := es + [e];
    var current := if e.email in t.byEmail then t.byEmail[e.email] else Participant(e.name, 0, [], e.status);
    var order := if e.email in t.byEmail then t.order else t.order + [e.email];
    var reviews := if e.review.Some? then t.reviews + [e.review.value] else t.reviews;
    AddEntryOk(t, e, current, order, reviews);
    var t' := Tally(t.byEmail[e.email := WithBook(current, e.book)], order, reviews);
    EmailsAppend(es, e);
    EmailsAreTheEmailsWithEntries(es);
    ReviewsAppend(es, e);
    forall m ensures (m in t'.byEmail <==> EntriesFor(es', m) != [])
      && (m in t'.byEmail ==> t'.byEmail[m] == ParticipantFrom(EntriesFor(es', m)))
    {
      EntriesForAppend(es, e, m);
      if m == e.email {
        if EntriesFor(es, m) == [] {
          ParticipantFromSingle(e);
        } else {
          ParticipantFromAppend(EntriesFor(es, m), e);
        }
      }
    }
  }

  /** Each published entry, run through the loop, lands where the reference says. */
  lemma {:induction false} AggregateAgrees(es: seq<Entry>)
    requires AggregateEntries(es).Ok?
    ensures var t := AggregateEntries(es).value;
      && t.order == Emails(es) && t.reviews == ReviewsOf(es)
      && (forall m :: m in t.byEmail <==> EntriesFor(es, m) != [])
      && (forall m :: m in t.byEmail ==> t.byEmail[m] == ParticipantFrom(EntriesFor(es, m)))
  {
    if es != [] {
      var init := es[..|es| - 1];
      var e := es[|es| - 1];
      assert es == init + [e];
      AggregateAgrees(init);
      AddEntryAgrees(init, e, AggregateEntries(init).value);
    }
  }

  /** The participant list the reference prescribes: one per distinct email, in first-appearance order. */
  function ReferenceParticipants(es: seq<Entry>): (ps: seq<Participant>)
    ensures |ps| == |Emails(es)|
  {
    EmailsAreTheEmailsWithEntries(es);
    var ms := Emails(es);
    seq(|ms|, i requires 0 <= i < |ms| => ParticipantFrom(EntriesFor(es, ms[i])))
  }

  /** The sum of `booksRead` over a participant list. */
  function SumBooksRead(ps: seq<Participant>): nat {
    if ps == [] then 0 else SumBooksRead(ps[..|ps| - 1]) + ps[|ps| - 1].booksRead
  }

  lemma {:induction false} ReferenceSum(ms: seq<string>, es: seq<Entry>, ps: seq<Participant>)
    requires |ps| == |ms|
    requires forall i :: 0 <= i < |ms| ==> ps[i].booksRead == |EntriesFor(es, ms[i])|
    ensures SumBooksRead(ps) == GroupSizes(ms, es)
  {
    if ms != [] {
      ReferenceSum(ms[..|ms| - 1], es, ps[..|ps| - 1]);
    }
  }

  // ------------------------------------------------------------ the whole parse

  /**
   * `parseCSVToLeaderboard` throws exactly when a published row's email names
   * an inherited property; otherwise its participants and reviews are the
   * reference ones built from the published rows.
   */
  lemma LeaderboardIsReference(csvText: string)
    ensures var es := PublishedEntries(DataRows(csvText));
      && (LeaderboardOf(csvText).Err? <==> HasInheritedKey(es))
      && (LeaderboardOf(csvText).Ok? ==>
            LeaderboardOf(csvText).value == Board(ReferenceParticipants(es), ReviewsOf(es)))
  {
    var es := PublishedEntries(DataRows(csvText));
    ErrIffInheritedKey(es);
    if AggregateEntries(es).Ok? {
      var t := AggregateEntries(es).value;
      AggregateAgrees(es);
      assert ParticipantsOf(t) == ReferenceParticipants(es);
    }
  }

  /** Every published data row is one book of one participant: the counts add up to the published rows. */
  lemma BooksReadSumsToPublishedRows(csvText: string)
    requires LeaderboardOf(csvText).Ok?
    ensures SumBooksRead(LeaderboardOf(csvText).value.participants) == |PublishedEntries(DataRows(csvText))|
  {
    var es := PublishedEntries(DataRows(csvText));
    LeaderboardIsReference(csvText);
    var ps := ReferenceParticipants(es);
    ReferenceSum(Emails(es), es, ps);
    GroupsPartitionEntries(es);
  }
}
