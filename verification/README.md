# Deck builder core, modelled in Dafny

The deck builder is a single React component. It looks up a Clash Royale
player with a statistics API, derives a profile of the player, asks a
language model for three decks, and maps the model's free-text replies back
onto the card catalog. This project models the logic inside that component
as pure Dafny functions and two small loops, and proves what the code
promises:

- **Player profile** (`Profile`, `Rates`). Statistics become a skill level,
  a playstyle, archetype labels, strength labels and weakness labels. The
  three ratios use JavaScript division: `0/0` is `NaN` and `k/0` is
  `Infinity`. They are kept as exact fractions, and every threshold test is
  shown equal to an integer cross-multiplication.
- **Deck resolver** (`DeckResolver`, `Text`, `Seqs`). A reply is trimmed,
  split on commas and each piece trimmed. Each token is then matched
  case-insensitively against the catalog, taking the first match, and
  unmatched tokens are dropped. The random fallback deck is a shuffled
  prefix of at most eight cards.
- **Completion key pool** (`KeyRotation`). The configured keys are
  filtered to the truthy ones. A cursor moves on modulo the pool size when
  a call is rate limited (HTTP 429). The retry loop makes at most one
  attempt per key: it rethrows any other error, and throws "All API keys
  exhausted" after the last attempt.
- **Recommendation step** (`Recommendation`). If all three completions
  succeed, each reply is resolved. If any one fails, all three decks come
  from the fallback.
- **Statistics client** (`StatsClient`). This covers tag normalisation and
  the two requests made with one key. It also covers the loop over the
  statistics keys: falsy keys are skipped, the loop stops at the first key
  that works, and it keeps the last error message.

External calls are parameters:
- an HTTP response is `HttpOk(body)` or `HttpNotOk`;
- completion attempt `j` returns `call(j)`;
- the fetch with statistics key `i` ends as `attempt(i)`;
- each shuffle is an arbitrary permutation of the catalog.

Behaviour of the code worth knowing:
- The resolver does not remove duplicates: a repeated token yields its card
  again (`KeepsRepeatedToken`).
- An empty key pool raises no separate "no credentials" error. The retry
  loop makes no attempt and throws "All API keys exhausted. Last error:
  undefined".
- Any response that is not ok fails with "Player not found", not only a
  not-found response.
- The three fallback decks are not drawn independently. The catalog array
  is sorted in place, so each shuffle reorders the previous one; the model
  requires each shuffle to be a permutation of the one before.
- A failure while generating decks never makes a statistics key count as
  failed. `generateDeckRecommendation` catches its own errors and falls
  back.

## Model

| member | source | states |
|---|---|---|
| Rates.CrossMultiplication | src/components/deck-builder.tsx:165-168 | for non-negative counts, the JavaScript comparison of a quotient with a threshold (including the NaN and Infinity quotients of a zero denominator) equals integer cross-multiplication |
| Profile.ClassifySkill | src/components/deck-builder.tsx:170-173 | every trophy count gets exactly one level: expert above 7000, advanced in (6000, 7000], intermediate in [4000, 6000], beginner below 4000 |
| Profile.ClassifyPlaystyle | src/components/deck-builder.tsx:165-182 | aggressive iff the three-crown percentage exceeds 40; control iff not aggressive, win percentage above 55 and three-crown percentage below 30; balanced otherwise; control is impossible with no battles |
| Profile.MasteryBadges | src/components/deck-builder.tsx:185-188 | keeps exactly the badges whose name starts with "Mastery" |
| Profile.AnyMastered | src/components/deck-builder.tsx:189-197 | true iff some badge has exactly the given name and a level above 5 |
| Profile.MasteryPrefilterIsRedundant | src/components/deck-builder.tsx:185-197 | for a "Mastery…" name, filtering on the prefix first does not change whether the badge counts as mastered |
| Profile.PreferredArchetypes | src/components/deck-builder.tsx:184-201 | an order-preserving subsequence of LavaLoon, Miner Control, Graveyard with at most three labels, each present iff its mastery badge is above level 5 |
| Profile.ArchetypesIgnoreBadgeOrder | src/components/deck-builder.tsx:184-201 | two badge lists with the same members give the same archetypes |
| Profile.StrengthAreas | src/components/deck-builder.tsx:203-207 | a subsequence of tournament, ladder, beatdown, war; tournament iff at least 15 challenge wins, ladder iff win percentage above 55, beatdown iff three-crown percentage above 40, war iff more than 200 war-day wins |
| Profile.WeaknessAreas | src/components/deck-builder.tsx:209-212 | a subsequence of challenges, consistency, closing games; challenges iff fewer than 6 challenge wins (a challenge rate below one half), consistency iff win percentage below 50, closing games iff three-crown percentage below 20 |
| Profile.AnalyzePlayerProfile | src/components/deck-builder.tsx:164-221 | expert iff more than 7000 trophies; beatdown strength iff aggressive playstyle; never both ladder strength and consistency weakness; control implies ladder; closing-games weakness rules out aggressive; all label lists keep their fixed order |
| Text.Trim | src/components/deck-builder.tsx:300-303 | the result is the part of the input between its leading and trailing whitespace runs, and starts and ends with non-whitespace |
| Text.TrimUnique | src/components/deck-builder.tsx:300-303 | any infix surrounded only by whitespace and not itself starting or ending with whitespace is the trimmed string |
| Text.TrimIdempotent | src/components/deck-builder.tsx:300-303 | trimming twice is trimming once |
| Text.TrimIgnoresSurroundingWhitespace | src/components/deck-builder.tsx:300-303 | whitespace added on either side does not change the trimmed string |
| Text.ToLower | src/components/deck-builder.tsx:307 | the result keeps the length, holds no capital letter, and differs from the input only where the input has a capital, which becomes its small letter |
| Text.ToLowerFixedPoints | src/components/deck-builder.tsx:307 | lower-casing leaves a string unchanged iff it holds no capital letter, so lower-casing twice is lower-casing once |
| Text.SplitOnComma | src/components/deck-builder.tsx:302 | at least one piece, no piece holds a comma, and joining the pieces with commas gives back the input |
| Text.SplitPieceCount | src/components/deck-builder.tsx:302 | there is one more piece than there are commas |
| Text.SplitJoinRoundTrip | src/components/deck-builder.tsx:302 | splitting undoes joining when no piece holds a comma |
| Text.SplitUnique | src/components/deck-builder.tsx:302 | a text has exactly one decomposition into comma-free pieces, and splitting returns it |
| Text.TrimOfJoin | src/components/deck-builder.tsx:300-303 | trimming a comma-joined text only cuts whitespace off the outside of the first and last pieces: every piece still trims to what it trimmed to before |
| Seqs.Present | src/components/deck-builder.tsx:310 | `.filter(Boolean)` on lookups keeps at most as many values as there were entries |
| Seqs.PresentTrace | src/components/deck-builder.tsx:310 | every kept value comes from its own entry, in increasing entry order, and only undefined entries are dropped |
| Seqs.PresentConcat | src/components/deck-builder.tsx:310 | filtering a concatenation filters each part |
| Seqs.SelectIsSubsequence | src/components/deck-builder.tsx:199-212 | labels pushed under independent tests form an order-preserving subsequence of the label list |
| Seqs.SelectMembership | src/components/deck-builder.tsx:199-212 | a label of a list without repeats is pushed iff its own test holds |
| DeckResolver.FirstMatch | src/components/deck-builder.tsx:306-308 | the index of the first catalog card whose lower-cased name equals the lower-cased token; none iff no card matches |
| DeckResolver.Find | src/components/deck-builder.tsx:305-309 | a found card is in the catalog, matches the token and no earlier catalog card matches it (the first match); nothing is found iff no catalog card matches |
| DeckResolver.FindIgnoresCase | src/components/deck-builder.tsx:306-308 | tokens that differ only in letter case find the same card |
| DeckResolver.Tokens | src/components/deck-builder.tsx:300-303 | token k is the trimmed k-th comma-separated piece of the trimmed reply; there is at least one token, and no token holds a comma or has whitespace to trim |
| DeckResolver.TokenCount | src/components/deck-builder.tsx:300-303 | the number of tokens is the number of commas in the trimmed reply plus one |
| DeckResolver.TokensOfJoinedNames | src/components/deck-builder.tsx:300-303 | any comma-free names joined by commas come back as those names each trimmed, so "Hog Rider, Fireball" gives ["Hog Rider", "Fireball"] and "Giant,,Fireball" gives an empty middle token |
| DeckResolver.JoinedNamesAreTrimmed | src/components/deck-builder.tsx:300-301 | the outer trim leaves such a joined reply unchanged |
| DeckResolver.ResolveTokens | src/components/deck-builder.tsx:304-310 | no more cards than tokens, and every card comes from the catalog |
| DeckResolver.ProcessResponse | src/components/deck-builder.tsx:299-311 | the deck of a reply has at most one card per token and only catalog cards |
| DeckResolver.ResolveTracesTokens | src/components/deck-builder.tsx:304-310 | card k is the first catalog match of its own token, tokens keep their order, and a token is dropped only when no catalog card matches it |
| DeckResolver.ResolveConcat | src/components/deck-builder.tsx:304-310 | each token is resolved on its own: resolving a concatenation concatenates the results |
| DeckResolver.DropsUnmatchedToken | src/components/deck-builder.tsx:304-310 | a token that names no card disappears without affecting the others |
| DeckResolver.KeepsRepeatedToken | src/components/deck-builder.tsx:304-310 | a repeated matching token yields its card twice |
| DeckResolver.AllMatchedKeepsLength | src/components/deck-builder.tsx:304-310 | when every token names a card, the deck has one card per token |
| DeckResolver.FallbackDeck | src/components/deck-builder.tsx:330-331 | the fallback deck has min(8, catalog size) cards, all from the catalog, none used more often than the catalog holds it |
| DeckResolver.FallbackHasNoRepeats | src/components/deck-builder.tsx:330-331 | from a catalog without repeats the fallback deck has no repeated card |
| KeyRotation.PresentKeys | src/components/deck-builder.tsx:77-84 | a key is in the pool iff it is a configured non-empty key; the pool is as long as the configuration iff every slot is truthy |
| KeyRotation.PresentKeysConcat | src/components/deck-builder.tsx:77-84 | filtering keeps the configuration order |
| KeyRotation.NewPool | src/components/deck-builder.tsx:76-86 | the cursor starts at 0, no key is empty, and the pool is empty iff no slot is truthy |
| KeyRotation.AdvanceTimes | src/components/deck-builder.tsx:111-113 | rate-limited calls keep the keys and leave the cursor valid |
| KeyRotation.AdvanceTimesCursor | src/components/deck-builder.tsx:111-113 | n rate-limited calls from cursor i leave the cursor at (i + n) mod the pool size |
| KeyRotation.FullRoundReturns | src/components/deck-builder.tsx:99-113 | a full round of rate-limited calls brings the pool back to where it started |
| KeyRotation.ExhaustedMessage | src/components/deck-builder.tsx:118 | the exhaustion error is "All API keys exhausted. Last error: " followed by the last error's message, or by "undefined" when there was none |
| KeyRotation.Rotation | src/components/deck-builder.tsx:88-113 | n attempts use n keys |
| KeyRotation.RotationOrder | src/components/deck-builder.tsx:88-113 | attempt j uses the key at (cursor + j) mod the pool size |
| KeyRotation.CreateCompletion | src/components/deck-builder.tsx:96-119 | at most one attempt per key, in rotation order from the cursor, every attempt but the last rate limited; a completion is returned or another error rethrown with the cursor where that attempt found it; otherwise all attempts were rate limited, the cursor is back at its start and the error names the last attempt's message ("undefined" with no key) |
| Recommendation.GenerateDeckRecommendation | src/components/deck-builder.tsx:265-336 | the fallback is used iff some completion failed; then all three decks have min(8, catalog size) cards; otherwise each deck is its reply resolved (a missing content read as ""); every deck uses catalog cards only |
| StatsClient.NormalizeTag | src/components/deck-builder.tsx:425-427 | one leading '#' is removed and any other tag is left unchanged |
| StatsClient.NormalizeStripsOnlyOneHash | src/components/deck-builder.tsx:425-427 | "##X" keeps its second '#' |
| StatsClient.PlayerPathIgnoresLeadingHash | src/components/deck-builder.tsx:425-430 | a tag typed with or without its '#' requests the same player |
| StatsClient.FetchWithApiKey | src/components/deck-builder.tsx:424-459 | the player request always comes first; the catalog is requested iff the player response was ok; success iff both are ok, with both bodies; otherwise "Player not found" or "Failed to fetch cards" |
| StatsClient.AttemptOutcome | src/components/deck-builder.tsx:470-481 | a fetch counts as a success iff it succeeded; a failure shows the Error's own message |
| StatsClient.TruthySlots | src/components/deck-builder.tsx:467-469 | exactly the truthy slots below n, in increasing order |
| StatsClient.FetchPlayerData | src/components/deck-builder.tsx:461-485 | only truthy slots are tried, in order, each failing but possibly the last; it succeeds iff some truthy slot's fetch succeeds, and it stops there; no truthy slot before the stop is skipped; the error text is empty after success or when no key was tried, otherwise the last failure's |

## Left out

- React rendering, the loading flag, the player and card state setters, and the display components (`DeckTypeGuide`, `DeckDisplay`) are UI code.
- `shareDeck` (clipboard) and `saveDeck` (file download) are browser I/O.
- `fetch` and the completion client are parameters: an HTTP response is ok with its body or not ok, and a completion attempt returns content, a rate limit or another error. Network failures and JSON parse errors thrown by `fetch` itself are not modelled.
- `KeyRotation.CreateCompletion`: `RateLimited` stands for an error whose `response.status` is 429. Whether the completion library's errors carry that field is outside this code.
- The three completions run concurrently under `Promise.all` and share one cursor. The model gives each its own result and does not model the interleaving of their cursor updates.
- `Recommendation.GenerateDeckRecommendation`: the message passed to `setError` in the catch is not modelled. It depends on which concurrent call rejects first. Also, `fetchPlayerData` clears the error after a successful key.
- `Recommendation.GenerateDeckRecommendation`: a reply with an empty `choices` array throws inside the try block and triggers the fallback. The model represents a reply only by its optional content.
- `analyzePlayerProfile` runs before the try block, so a record without badges throws out of `fetchWithApiKey`. Records are modelled complete.
- `generatePrompt` is string interpolation with no behaviour to prove.
- The `toFixed` displays of average elixir and percentages are floating-point display code.
- The distribution of `Math.random` ordering is not modelled. A shuffle is any permutation.
- `Profile.ClassifyPlaystyle`: ratios are exact fractions, not IEEE doubles. The two disagree only at the 55 % win-rate test. With 11 wins in 20 battles (or 22 in 40, 33 in 60, ...) the double `(11/20)*100` is 55.00000000000001, so the code gives the "ladder" strength and, when the three-crown rate is below 30 %, the control playstyle; the model, with an exact 55, gives neither. The 40 %, 30 % and 20 % three-crown tests, the 50 % win-rate test and the challenge test never disagree for records of fewer than 3000 battles. The same idealisation applies to `Profile.StrengthAreas` and `Profile.AnalyzePlayerProfile`.
- `Profile.AnalyzePlayerProfile`: wins, losses and three-crown wins are non-negative integers. Missing or non-numeric fields (`undefined` arithmetic) are not modelled.
- `Text.ToLower`: only the ASCII letters A-Z are mapped, so case-insensitive matching is stricter than with JavaScript's full Unicode `toLowerCase`: non-ASCII names that differ only in case do not match.
- Card records keep id, name, elixir cost, rarity and icon URL. No other field is used.
- The configuration and metadata files (src/app/layout.tsx, capacitor.config.ts, next.config.ts, src/types/next-pwa.d.ts) hold no logic.
