/** The statistics side: the player tag as it goes into the request path,
    the two requests made with one key, and the loop that tries the
    configured statistics keys in order until one of them works. */
module StatsClient {
  import opened JsValues
  import opened Profile
  import opened DeckResolver

  /** Removes one leading '#' from a player tag, if there is one. */
  function NormalizeTag(tag: string): (r: string)
    ensures |tag| > 0 && tag[0] == '#' ==> "#" + r == tag
    ensures !(|tag| > 0 && tag[0] == '#') ==> r == tag
  {
    if |tag| > 0 && tag[0] == '#' then tag[1..] else tag
  }

  /** Only one '#' is removed: the tag "##X" keeps its second '#'. */
  lemma NormalizeStripsOnlyOneHash(t: string)
    ensures NormalizeTag("#" + t) == t
    ensures NormalizeTag("##" + t) == "#" + t
  {
    assert ("#" + t)[1..] == t;
    assert ("##" + t)[1..] == "#" + t;
  }

  /** Path of the player request; the '#' is sent percent-encoded. */
  function PlayerPath(tag: string): string {
    "/players/%23" + NormalizeTag(tag)
  }

  const CardsPath: string := "/cards"

  /** A tag typed with or without its leading '#' asks for the same player. */
  lemma PlayerPathIgnoresLeadingHash(t: string)
    requires !(|t| > 0 && t[0] == '#')
    ensures PlayerPath("#" + t) == PlayerPath(t)
  {
    assert ("#" + t)[1..] == t;
  }

  /** A response of the statistics service: `res.ok` with its body, or not ok. */
  datatype HttpReply<T> = HttpOk(body: T) | HttpNotOk

  /** What one key fetched: the player record and the card catalog. */
  datatype Fetched = Fetched(player: PlayerStats, catalog: seq<Card>)

  /** The requests issued with one key and how the attempt ended. */
  datatype FetchRun = FetchRun(requests: seq<string>, result: Result<Fetched, string>)

  /** `fetchWithApiKey`: the player request, then the catalog request, each
      failing with its own message when the response is not ok. The deck
      recommendation that follows catches its own errors, so it does not
      decide whether the key worked. */
  function FetchWithApiKey(tag: string, playerReply: HttpReply<PlayerStats>, cardsReply: HttpReply<seq<Card>>): (run: FetchRun)
    ensures |run.requests| >= 1 && run.requests[0] == PlayerPath(tag)
    ensures CardsPath in run.requests <==> playerReply.HttpOk?
    ensures run.result.Success? <==> playerReply.HttpOk? && cardsReply.HttpOk?
    ensures run.result.Success? ==> run.result.value == Fetched(playerReply.body, cardsReply.body)
    ensures playerReply.HttpNotOk? ==> run.result == Failure("Player not found")
    ensures playerReply.HttpOk? && cardsReply.HttpNotOk? ==> run.result == Failure("Failed to fetch cards")
  {
    var playerRequest := PlayerPath(tag);
    assert "/players/%23" <= playerRequest;
    assert CardsPath != playerRequest by {
      assert playerRequest[1] == 'p';
    }
    match playerReply
    case HttpNotOk => FetchRun([playerRequest], Failure("Player not found"))
    case HttpOk(player) =>
      match cardsReply
      case HttpNotOk => FetchRun([playerRequest, CardsPath], Failure("Failed to fetch cards"))
      case HttpOk(catalog) => FetchRun([playerRequest, CardsPath], Success(Fetched(player, catalog)))
  }

  /** A thrown value: an `Error` with its message, or anything else. */
  datatype Thrown = ErrorObject(message: string) | NonErrorValue

  /** How `fetchWithApiKey` ended for one configured key. */
  datatype KeyAttempt = Succeeded | Threw(error: Thrown)

  /** The text shown for a thrown value. */
  function ErrorText(t: Thrown): string {
    match t
    case ErrorObject(m) => m
    case NonErrorValue => "An unknown error occurred"
  }

  /** How the key loop sees one `fetchWithApiKey` run: a success, or the
      `Error` it threw, whose message is then shown. */
  function AttemptOutcome(run: FetchRun): (a: KeyAttempt)
    ensures a.Succeeded? <==> run.result.Success?
    ensures a.Threw? ==> a.error.ErrorObject? && ErrorText(a.error) == run.result.error
  {
    match run.result
    case Success(_) => Succeeded
    case Failure(message) => Threw(ErrorObject(message))
  }

  /** The slots below `n` whose key is truthy, in slot order. */
  function TruthySlots(slots: seq<Option<string>>, n: nat): (r: seq<nat>)
    requires n <= |slots|
    ensures forall k :: 0 <= k < |r| ==> r[k] < n && Truthy(slots[r[k]])
    ensures forall k, l :: 0 <= k < l < |r| ==> r[k] < r[l]
    ensures forall j :: 0 <= j < n && Truthy(slots[j]) ==> j in r
  {
    if n == 0 then []
    else
      var before := TruthySlots(slots, n - 1);
      if Truthy(slots[n - 1]) then
        var r := before + [n - 1];
        assert forall j :: j in before ==> j in r;
        r
      else before
  }

  /** `fetchPlayerData`: the configured keys in order, skipping absent or
      empty ones, stopping at the first key whose fetch succeeds. It reports
      the slots it tried, whether one succeeded, and the error text left on
      screen: empty after a success or when no key was tried, otherwise the
      last failure's. `attempt(i)` is how the fetch with slot i's key ends. */
  method FetchPlayerData(slots: seq<Option<string>>, attempt: nat -> KeyAttempt)
    returns (tried: seq<nat>, succeeded: bool, error: string)
    ensures forall k :: 0 <= k < |tried| ==> tried[k] < |slots| && Truthy(slots[tried[k]])
    ensures forall k, l :: 0 <= k < l < |tried| ==> tried[k] < tried[l]
    ensures forall k :: 0 <= k < |tried| - 1 ==> attempt(tried[k]).Threw?
    ensures succeeded <==> tried != [] && attempt(tried[|tried| - 1]).Succeeded?
    ensures succeeded <==> exists i :: 0 <= i < |slots| && Truthy(slots[i]) && attempt(i).Succeeded?
    ensures forall i :: 0 <= i < |slots| && Truthy(slots[i]) && (!succeeded || i < tried[|tried| - 1]) ==> i in tried
    ensures succeeded || tried == [] ==> error == ""
    ensures !succeeded && tried != [] ==> error == ErrorText(attempt(tried[|tried| - 1]).error)
  {
    succeeded := false;
    var i := 0;
    while i < |slots| && !succeeded
      invariant 0 <= i <= |slots|
      invariant succeeded ==> 0 < i && Truthy(slots[i - 1]) && attempt(i - 1).Succeeded?
      invariant forall j :: 0 <= j < i && Truthy(slots[j]) && (!succeeded || j < i - 1) ==> attempt(j).Threw?
    {
      if Truthy(slots[i]) {
        succeeded := attempt(i).Succeeded?;
      }
      i := i + 1;
    }
    tried := TruthySlots(slots, i);
    if succeeded {
      assert tried == TruthySlots(slots, i - 1) + [i - 1];
    }
    // Each failed attempt overwrites the message, so the last one remains.
    error := if succeeded || tried == [] then "" else ErrorText(attempt(tried[|tried| - 1]).error);
  }
}
