/**
 * The two module variables of data.js, `allData` and `reviewsData`, and the
 * operations that read and replace them: `fetchLatestData`, `setData` and
 * `getData`. The HTTP round trip is an input (the response, or a transport
 * failure); the configured sheet URL and the sample data are fixed when the
 * store is made and are otherwise opaque.
 */
module DataStore {
  import opened Wrappers
  import opened Leaderboard

  /** What `fetch(CONFIG.SHEET_CSV_URL)` produced: a response (ok or not) with its text, or a rejection. */
  datatype Outcome = Response(ok: bool, body: string) | TransportFailure

  /** The board a fetch yields, or `None` when the fetch or the parse threw into the `catch`. */
  function Attempt(o: Outcome): (r: Option<Board>)
    ensures r.Some? <==> o.Response? && o.ok && LeaderboardOf(o.body).Ok?
    ensures r.Some? ==> r.value == LeaderboardOf(o.body).value
  {
    if o.Response? && o.ok then
      match LeaderboardOf(o.body)
      case Ok(b) => Some(b)
      case Err(_) => None
    else None
  }

  /** The held data after one `fetchLatestData`, and the value the call resolves to. */
  datatype Step = Step(held: Board, returned: Board)

  /**
   * `fetchLatestData` as a state transition over `{allData, reviewsData}`: with
   * no sheet URL nothing is stored and the sample is returned; otherwise the
   * call resolves to what it leaves held, which is the parsed board, or on a
   * failure the held data if it has participants and the sample if not.
   */
  function FetchStep(configured: bool, held: Board, o: Outcome, sample: Board): (st: Step)
    ensures !configured ==> st.held == held && st.returned == sample
    ensures configured ==> st.returned == st.held
    ensures configured && Attempt(o).Some? ==> st.held == Attempt(o).value
    ensures configured && Attempt(o).None? ==> st.held == (if held.participants == [] then sample else held)
  {
    if !configured then Step(held, sample)
    else
      match Attempt(o)
      case Some(b) => Step(b, b)
      case None => if held.participants == [] then Step(sample, sample) else Step(held, held)
  }

  // ------------------------------------------------------------ the policy, case by case

  /** With no sheet URL the sample data is returned and the held data is not touched. */
  lemma UnconfiguredReturnsSample(held: Board, o: Outcome, sample: Board)
    ensures FetchStep(false, held, o, sample) == Step(held, sample)
  {
  }

  /** A parsed response replaces both variables, even when it holds no participants. */
  lemma SuccessReplaces(held: Board, text: string, sample: Board)
    requires LeaderboardOf(text).Ok?
    ensures FetchStep(true, held, Response(true, text), sample).held == LeaderboardOf(text).value
  {
  }

  /** A failed fetch never discards participants that are held. */
  lemma FailureKeepsHeldData(held: Board, o: Outcome, sample: Board)
    requires Attempt(o).None? && held.participants != []
    ensures FetchStep(true, held, o, sample) == Step(held, held)
  {
  }

  /** A failed fetch with nothing held installs the sample data. */
  lemma FailureOnEmptyInstallsSample(held: Board, o: Outcome, sample: Board)
    requires Attempt(o).None? && held.participants == []
    ensures FetchStep(true, held, o, sample) == Step(sample, sample)
  {
  }

  /** Once a URL is configured, the call resolves to exactly what it leaves held. */
  lemma ConfiguredReturnsHeld(held: Board, o: Outcome, sample: Board)
    ensures FetchStep(true, held, o, sample).returned == FetchStep(true, held, o, sample).held
  {
  }

  /** The held data changes only through a successful parse or the empty-data fallback. */
  lemma HeldChangesOnlyBySuccessOrFallback(configured: bool, held: Board, o: Outcome, sample: Board)
    requires FetchStep(configured, held, o, sample).held != held
    ensures configured
    ensures Attempt(o).Some? || (held.participants == [] && FetchStep(configured, held, o, sample).held == sample)
  {
  }

  /**
   * The fallback test is `allData.length === 0`, not "no fetch has succeeded":
   * a successful fetch whose sheet has no published rows, followed by a failed
   * one, shows the sample data.
   */
  lemma EmptySuccessThenFailureShowsSample(held: Board, text: string, failed: Outcome, sample: Board)
    requires LeaderboardOf(text).Ok? && LeaderboardOf(text).value.participants == []
    requires Attempt(failed).None?
    ensures var first := FetchStep(true, held, Response(true, text), sample);
      FetchStep(true, first.held, failed, sample).held == sample
  {
  }

  /** After a success with participants, a failed fetch leaves that success's data held. */
  lemma SuccessThenFailureKeepsSuccess(held: Board, text: string, failed: Outcome, sample: Board)
    requires LeaderboardOf(text).Ok? && LeaderboardOf(text).value.participants != []
    requires Attempt(failed).None?
    ensures var first := FetchStep(true, held, Response(true, text), sample);
      FetchStep(true, first.held, failed, sample) == Step(LeaderboardOf(text).value, LeaderboardOf(text).value)
  {
  }

  // ------------------------------------------------------------ the module state

  class Store {
    /** `allData` and `reviewsData`. */
    var allData: seq<Participant>
    var reviewsData: seq<Review>
    /** `CONFIG.SHEET_CSV_URL`; the empty string means "not configured". */
    const sheetUrl: string
    /** `sampleData` and `sampleReviewsData`. */
    const sample: Board

    /** The module as loaded: both variables are empty arrays. */
    constructor (sheetUrl: string, sample: Board)
      ensures this.sheetUrl == sheetUrl && this.sample == sample
      ensures allData == [] && reviewsData == []
    {
      this.sheetUrl := sheetUrl;
      this.sample := sample;
      allData := [];
      reviewsData := [];
    }

    /** `getData()`. */
    function GetData(): (b: Board)
      reads this
      ensures b.participants == allData && b.reviews == reviewsData
    {
      Board(allData, reviewsData)
    }

    /** `setData(participants, reviews)`: `getData()` then returns exactly these. */
    method SetData(participants: seq<Participant>, reviews: seq<Review>)
      modifies this
      ensures GetData() == Board(participants, reviews)
    {
      allData := participants;
      reviewsData := reviews;
    }

    /** `fetchLatestData()`, with the outcome of the HTTP request given. */
    method FetchLatestData(outcome: Outcome) returns (result: Board)
      modifies this
      ensures var step := FetchStep(sheetUrl != [], old(GetData()), outcome, sample);
        GetData() == step.held && result == step.returned
    {
      if sheetUrl == [] {
        return sample;
      }
      if outcome.TransportFailure? || !outcome.ok {
        result := Fallback();
        return;
      }
      var parsed := ParseCsvToLeaderboard(outcome.body);
      if parsed.Err? {
        result := Fallback();
        return;
      }
      allData := parsed.value.participants;
      reviewsData := parsed.value.reviews;
      result := parsed.value;
    }

    /** The `catch` block: install the sample data if `allData` is empty, then return what is held. */
    method Fallback() returns (result: Board)
      modifies this
      ensures old(allData) == [] ==> GetData() == sample
      ensures old(allData) != [] ==> GetData() == old(GetData())
      ensures result == GetData()
    {
      if |allData| == 0 {
        allData := sample.participants;
        reviewsData := sample.reviews;
      }
      result := Board(allData, reviewsData);
    }
  }
}
