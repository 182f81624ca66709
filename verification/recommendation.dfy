/** The recommendation step: three completion replies (aggressive, control,
    fast cycle) resolved against the catalog, or, when any one of them
    failed, three fallback decks drawn from the catalog. */
module Recommendation {
  import opened JsValues
  import opened DeckResolver
  import opened KeyRotation

  datatype DeckSet = DeckSet(aggressive: seq<Card>, control: seq<Card>, fastCycle: seq<Card>)

  datatype Generated = Generated(decks: DeckSet, usedFallback: bool)

  /** `message.content || ""`. */
  function ReplyText(content: Option<string>): string {
    match content
    case Some(text) => text
    case None => ""
  }

  predicate FromCatalog(deck: seq<Card>, catalog: seq<Card>) {
    forall c :: c in deck ==> c in catalog
  }

  /** `generateDeckRecommendation` after the three concurrent completions:
      all replies resolved when every completion succeeded, otherwise the
      fallback for all three styles, none kept from the successful calls.
      The catalog array is shuffled in place, so each fallback shuffle
      reorders the previous one. */
  function GenerateDeckRecommendation(
    catalog: seq<Card>,
    aggressiveReply: Result<Option<string>, CompletionError>,
    controlReply: Result<Option<string>, CompletionError>,
    fastCycleReply: Result<Option<string>, CompletionError>,
    shuffle1: seq<Card>, shuffle2: seq<Card>, shuffle3: seq<Card>): (g: Generated)
    requires multiset(shuffle1) == multiset(catalog)
    requires multiset(shuffle2) == multiset(shuffle1)
    requires multiset(shuffle3) == multiset(shuffle2)
    ensures g.usedFallback <==> aggressiveReply.Failure? || controlReply.Failure? || fastCycleReply.Failure?
    ensures FromCatalog(g.decks.aggressive, catalog)
    ensures FromCatalog(g.decks.control, catalog)
    ensures FromCatalog(g.decks.fastCycle, catalog)
    ensures g.usedFallback ==>
      && |g.decks.aggressive| == Min(DeckSize, |catalog|)
      && |g.decks.control| == Min(DeckSize, |catalog|)
      && |g.decks.fastCycle| == Min(DeckSize, |catalog|)
    ensures !g.usedFallback ==>
      && g.decks.aggressive == ProcessResponse(ReplyText(aggressiveReply.value), catalog)
      && g.decks.control == ProcessResponse(ReplyText(controlReply.value), catalog)
      && g.decks.fastCycle == ProcessResponse(ReplyText(fastCycleReply.value), catalog)
  {
    if aggressiveReply.Success? && controlReply.Success? && fastCycleReply.Success? then
      Generated(
        DeckSet(
          ProcessResponse(ReplyText(aggressiveReply.value), catalog),
          ProcessResponse(ReplyText(controlReply.value), catalog),
          ProcessResponse(ReplyText(fastCycleReply.value), catalog)),
        false)
    else
      Generated(
        DeckSet(
          FallbackDeck(catalog, shuffle1),
          FallbackDeck(catalog, shuffle2),
          FallbackDeck(catalog, shuffle3)),
        true)
  }
}
