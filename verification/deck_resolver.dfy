/** The deck resolver: a model reply (free text, card names separated by
    commas) mapped back onto the card catalog, and the random fallback deck
    used when no reply is available. */
module DeckResolver {
  import opened JsValues
  import opened Text
  import opened Seqs

  /** A catalog entry; the icon is reduced to its URL. */
  datatype Card = Card(id: string, name: string, elixirCost: int, rarity: string, iconUrl: string)

  /** Cards in a full deck. */
  const DeckSize: nat := 8

  /** `card.name.toLowerCase() === token.toLowerCase()`. */
  predicate NameMatches(card: Card, token: string) {
    ToLower(card.name) == ToLower(token)
  }

  /** Index of the first catalog card whose name matches the token, if any. */
  function FirstMatch(catalog: seq<Card>, token: string): (r: Option<nat>)
    ensures r.Some? ==> r.value < |catalog| && NameMatches(catalog[r.value], token)
    ensures r.Some? ==> forall j :: 0 <= j < r.value ==> !NameMatches(catalog[j], token)
    ensures r.None? <==> forall j :: 0 <= j < |catalog| ==> !NameMatches(catalog[j], token)
  {
    if catalog == [] then None
    else if NameMatches(catalog[0], token) then Some(0)
    else match FirstMatch(catalog[1..], token)
      case None => None
      case Some(i) => Some(i + 1)
  }

  /** `availableCards.find(card => …)`: the first matching card. */
  function Find(catalog: seq<Card>, token: string): (r: Option<Card>)
    ensures r.Some? ==> r.value in catalog && NameMatches(r.value, token)
    ensures r.Some? ==> exists i :: (0 <= i < |catalog| && catalog[i] == r.value
                                     && forall j :: 0 <= j < i ==> !NameMatches(catalog[j], token))
    ensures r.None? <==> forall c :: c in catalog ==> !NameMatches(c, token)
  {
    match FirstMatch(catalog, token)
    case None => None
    case Some(i) => Some(catalog[i])
  }

  /** Matching ignores case: tokens that lower-case alike find the same card. */
  lemma {:induction false} FindIgnoresCase(catalog: seq<Card>, t: string, u: string)
    requires ToLower(t) == ToLower(u)
    ensures Find(catalog, t) == Find(catalog, u)
  {
    FirstMatchIgnoresCase(catalog, t, u);
  }

  lemma {:induction false} FirstMatchIgnoresCase(catalog: seq<Card>, t: string, u: string)
    requires ToLower(t) == ToLower(u)
    ensures FirstMatch(catalog, t) == FirstMatch(catalog, u)
  {
    if catalog != [] {
      FirstMatchIgnoresCase(catalog[1..], t, u);
    }
  }

  /** The tokens of a reply: trimmed, split on every comma, each piece
      trimmed. Token k is the trimmed k-th comma-separated piece of the
      trimmed reply. */
  function Tokens(response: string): (tokens: seq<string>)
    ensures |tokens| >= 1
    ensures forall k :: 0 <= k < |tokens| ==> ',' !in tokens[k] && Trim(tokens[k]) == tokens[k]
    ensures exists pieces :: (CommaPieces(Trim(response), pieces) && |pieces| == |tokens|
                              && forall k :: 0 <= k < |tokens| ==> tokens[k] == Trim(pieces[k]))
  {
    var pieces := SplitOnComma(Trim(response));
    assert CommaPieces(Trim(response), pieces);
    seq(|pieces|, k requires 0 <= k < |pieces| => TrimIdempotent(pieces[k]); TrimSubstring(pieces[k]); Trim(pieces[k]))
  }

  /** A reply has one token more than its trimmed text has commas. */
  lemma TokenCount(response: string)
    ensures |Tokens(response)| == multiset(Trim(response))[','] + 1
  {
    SplitPieceCount(Trim(response));
  }

  /** A reply written as comma-separated names is read as those names,
      each trimmed: spaces after the commas and empty entries come through
      as the trimmed (possibly empty) names. */
  lemma TokensOfJoinedNames(names: seq<string>)
    requires |names| >= 1
    requires forall k :: 0 <= k < |names| ==> ',' !in names[k]
    ensures Tokens(JoinWithComma(names)) == seq(|names|, k requires 0 <= k < |names| => Trim(names[k]))
  {
    var s := JoinWithComma(names);
    var inner := TrimOfJoin(names);
    SplitJoinRoundTrip(inner);
    var tokens := Tokens(s);
    assert |tokens| == |names|;
    forall k | 0 <= k < |names| ensures tokens[k] == Trim(names[k]) {
      assert tokens[k] == Trim(inner[k]);
    }
  }

  /** Joining names that do not start or end with whitespace gives a text
      that trimming leaves alone. */
  lemma JoinedNamesAreTrimmed(names: seq<string>)
    requires |names| >= 1
    requires names[0] != "" && Trim(names[0]) == names[0]
    requires names[|names| - 1] != "" && Trim(names[|names| - 1]) == names[|names| - 1]
    ensures Trim(JoinWithComma(names)) == JoinWithComma(names)
  {
    var s := JoinWithComma(names);
    var first, last := names[0], names[|names| - 1];
    JoinEnds(names);
    assert s[0] == first[0];
    assert s[|s| - 1] == last[|last| - 1] by {
      assert s[|s| - |last|..][|last| - 1] == s[|s| - 1];
    }
    assert s[0..0 + |s|] == s && s[..0] == [] && s[|s|..] == [];
    TrimUnique(s, 0, s);
  }

  /** `cardNames.map(name => availableCards.find(…))`: one lookup per token. */
  function Lookups(tokens: seq<string>, catalog: seq<Card>): seq<Option<Card>> {
    seq(|tokens|, k requires 0 <= k < |tokens| => Find(catalog, tokens[k]))
  }

  /** The found cards, in token order; unmatched tokens contribute nothing
      (`.filter(Boolean)`). */
  function ResolveTokens(tokens: seq<string>, catalog: seq<Card>): (deck: seq<Card>)
    ensures |deck| <= |tokens|
    ensures forall c :: c in deck ==> c in catalog
  {
    Present(Lookups(tokens, catalog))
  }

  /** `processResponse`: the cards a reply names, in the reply's order. */
  function ProcessResponse(response: string, catalog: seq<Card>): (deck: seq<Card>)
    ensures |deck| <= |Tokens(response)|
    ensures forall c :: c in deck ==> c in catalog
  {
    ResolveTokens(Tokens(response), catalog)
  }

  /** Every card of the resolved deck is the first catalog match of its own
      token, the cards keep the tokens' order, and only tokens that match no
      card are dropped. */
  lemma ResolveTracesTokens(tokens: seq<string>, catalog: seq<Card>) returns (src: seq<nat>)
    ensures |src| == |ResolveTokens(tokens, catalog)|
    ensures forall k :: 0 <= k < |src| ==>
      src[k] < |tokens| && Find(catalog, tokens[src[k]]) == Some(ResolveTokens(tokens, catalog)[k])
    ensures forall k, l :: 0 <= k < l < |src| ==> src[k] < src[l]
    ensures forall i :: 0 <= i < |tokens| && i !in src ==>
      forall c :: c in catalog ==> !NameMatches(c, tokens[i])
  {
    src := PresentTrace(Lookups(tokens, catalog));
  }

  /** Resolving a concatenation resolves each part: the resolver treats
      every token on its own. */
  lemma ResolveConcat(a: seq<string>, b: seq<string>, catalog: seq<Card>)
    ensures ResolveTokens(a + b, catalog) == ResolveTokens(a, catalog) + ResolveTokens(b, catalog)
  {
    assert Lookups(a + b, catalog) == Lookups(a, catalog) + Lookups(b, catalog);
    PresentConcat(Lookups(a, catalog), Lookups(b, catalog));
  }

  /** A token that names no card is dropped without affecting the others. */
  lemma DropsUnmatchedToken(a: seq<string>, t: string, b: seq<string>, catalog: seq<Card>)
    requires forall c :: c in catalog ==> !NameMatches(c, t)
    ensures ResolveTokens(a + [t] + b, catalog) == ResolveTokens(a + b, catalog)
  {
    ResolveConcat(a + [t], b, catalog);
    ResolveConcat(a, [t], catalog);
    ResolveConcat(a, b, catalog);
    assert ResolveTokens([t], catalog) == [];
  }

  /** A repeated token yields its card again: the resolver does not remove
      duplicates. */
  lemma KeepsRepeatedToken(t: string, catalog: seq<Card>)
    requires exists c :: c in catalog && NameMatches(c, t)
    ensures |ResolveTokens([t, t], catalog)| == 2
    ensures ResolveTokens([t, t], catalog)[0] == ResolveTokens([t, t], catalog)[1]
  {
    assert [t, t] == [t] + [t];
    ResolveConcat([t], [t], catalog);
    assert ResolveTokens([t], catalog) == [Find(catalog, t).value];
  }

  /** When every token names a card the deck has one card per token. */
  lemma AllMatchedKeepsLength(tokens: seq<string>, catalog: seq<Card>)
    requires forall k :: 0 <= k < |tokens| ==> exists c :: c in catalog && NameMatches(c, tokens[k])
    ensures |ResolveTokens(tokens, catalog)| == |tokens|
  {
    PresentAllKept(Lookups(tokens, catalog));
  }

  // ---- Fallback deck ----

  function Min(a: nat, b: nat): nat {
    if a <= b then a else b
  }

  /** `availableCards.sort(() => Math.random() - 0.5).slice(0, 8)`: the first
      eight cards of some reordering of the catalog. The shuffle is a
      parameter; only its being a permutation is assumed. */
  function FallbackDeck(catalog: seq<Card>, shuffled: seq<Card>): (deck: seq<Card>)
    requires multiset(shuffled) == multiset(catalog)
    ensures |deck| == Min(DeckSize, |catalog|)
    ensures multiset(deck) <= multiset(catalog)
    ensures forall c :: c in deck ==> c in catalog
  {
    var n := Min(DeckSize, |shuffled|);
    assert |shuffled| == |multiset(shuffled)| == |catalog|;
    assert shuffled == shuffled[..n] + shuffled[n..];
    assert multiset(shuffled) == multiset(shuffled[..n]) + multiset(shuffled[n..]);
    assert forall c :: c in shuffled[..n] ==> c in multiset(shuffled[..n]);
    assert forall c :: c in multiset(catalog) ==> c in catalog;
    shuffled[..n]
  }

  /** Unlike a model reply, the fallback never repeats a card of a catalog
      without repetitions. */
  lemma FallbackHasNoRepeats(catalog: seq<Card>, shuffled: seq<Card>)
    requires multiset(shuffled) == multiset(catalog)
    requires forall i, j :: 0 <= i < j < |catalog| ==> catalog[i] != catalog[j]
    ensures var deck := FallbackDeck(catalog, shuffled);
      forall i, j :: 0 <= i < j < |deck| ==> deck[i] != deck[j]
  {
    var deck := FallbackDeck(catalog, shuffled);
    forall c ensures multiset(deck)[c] <= 1 {
      AtMostOnce(catalog, c);
    }
    forall i, j | 0 <= i < j < |deck| ensures deck[i] != deck[j] {
      if deck[i] == deck[j] {
        TwiceCounted(deck, i, j);
        assert false;
      }
    }
  }

  /** An element at two positions is counted twice. */
  lemma TwiceCounted(s: seq<Card>, i: nat, j: nat)
    requires i < j < |s| && s[i] == s[j]
    ensures multiset(s)[s[i]] >= 2
  {
    assert s == s[..i] + [s[i]] + s[i + 1..j] + [s[j]] + s[j + 1..];
  }

  /** In a sequence without repetitions an element occurs at most once. */
  lemma {:induction false} AtMostOnce(s: seq<Card>, c: Card)
    requires forall i, j :: 0 <= i < j < |s| ==> s[i] != s[j]
    ensures multiset(s)[c] <= 1
  {
    if s != [] {
      AtMostOnce(s[1..], c);
      assert s == [s[0]] + s[1..];
      if s[0] == c {
        assert c !in s[1..];
      }
    }
  }
}
