/**
 * Retrieval: the per-guild fallbacks for the search parameters, the search
 * request restricted to the caller's guild, and the assembly of the context
 * block and citations from the hits the store ranks. The ranking, the score
 * threshold and the embedding of the query belong to the store and the
 * embedder and are not modelled; the hits arrive as a parameter.
 */
module Retrieval {
  import opened Wrappers
  import opened Text
  import opened Records
  import opened Filters
  import Chunking

  /** `_get_top_k`: the guild's value when it is truthy, so an unset or zero
      guild value falls back to the global one. */
  function TopK(guildTopK: Option<int>, globalTopK: int): (k: int)
    ensures guildTopK.Some? && guildTopK.value != 0 ==> k == guildTopK.value
    ensures guildTopK.None? || guildTopK.value == 0 ==> k == globalTopK
  {
    if Truthy(guildTopK) then guildTopK.value else globalTopK
  }

  /** `_get_min_score`: the guild's value whenever one is set, zero included. */
  function MinScore(guildMin: Option<real>, globalMin: real): (s: real)
    ensures guildMin.Some? ==> s == guildMin.value
    ensures guildMin.None? ==> s == globalMin
  {
    match guildMin
    case Some(v) => v
    case None => globalMin
  }

  /** A zero guild top-k is ignored while a zero guild min-score is honoured. */
  lemma ZeroOverrides(globalTopK: int, globalMin: real)
    ensures TopK(Some(0), globalTopK) == globalTopK
    ensures MinScore(Some(0.0), globalMin) == 0.0
  {
  }

  /** The arguments `retrieve_context` hands to `client.search`. */
  datatype SearchRequest = SearchRequest(limit: int, threshold: real, filter: Filter)

  function Request(guildId: int, guildTopK: Option<int>, globalTopK: int,
                   guildMin: Option<real>, globalMin: real): (q: SearchRequest)
    ensures q.limit == TopK(guildTopK, globalTopK)
    ensures q.threshold == MinScore(guildMin, globalMin)
    ensures forall p :: Matches(q.filter, p) <==> p.guildId == guildId
  {
    SearchRequest(TopK(guildTopK, globalTopK), MinScore(guildMin, globalMin), GuildFilter(guildId))
  }

  /** The string fields of a hit's payload; a hit without a payload has none. */
  type Hit = map<string, string>

  /** `payload.get(key, default)`. */
  function Get(h: Hit, key: string, default: string): string {
    if key in h then h[key] else default
  }

  /** `f"[{i+1}] {s}"`: item `i` of a list, numbered from one. */
  function Numbered(i: nat, s: string): string {
    "[" + NatToString(i + 1) + "] " + s
  }

  /** The citation of a hit: its source, or `discord` when that is empty, then
      its author (`?` when absent) and its creation time. */
  function Cite(h: Hit): string {
    var source := Get(h, "source", "");
    (if source == "" then "discord" else source) + " — " + Get(h, "author", "?") + " " + Get(h, "created_at", "")
  }

  function Blocks(hits: seq<Hit>): seq<string> {
    seq(|hits|, k requires 0 <= k < |hits| => Numbered(k, Get(hits[k], "text", "")))
  }

  function Cites(hits: seq<Hit>): seq<string> {
    seq(|hits|, k requires 0 <= k < |hits| => Cite(hits[k]))
  }

  /** `s` cut to the budget `n` as `if len(s) > n: s = s[:n]` does, with
      Python's reading of a negative `n` as "all but the last `-n`". The result
      is always a prefix of `s`. */
  function Truncate(s: string, n: int): (r: string)
    ensures |r| <= |s| && r == s[..|r|]
    ensures n >= 0 ==> |r| == Chunking.Min(n, |s|)
    ensures n < 0 ==> |r| == Chunking.Max(0, |s| + n)
  {
    if |s| > n then
      if n >= 0 then s[..n] else s[..Chunking.Max(0, |s| + n)]
    else s
  }

  /** The context block for the hits under a character budget. */
  function Context(hits: seq<Hit>, budget: int): string {
    Truncate(JoinWith("\n\n", Blocks(hits)), budget)
  }

  /** `retrieve_context` after the search: nothing for no hits, otherwise the
      numbered blocks joined by blank lines and cut to the budget, with one
      citation per hit in the same order. */
  method RetrieveContext(hits: seq<Hit>, contextChars: int)
    returns (context: Option<string>, citations: Option<seq<string>>)
    ensures hits == [] ==> context == None && citations == None
    ensures hits != [] ==> context == Some(Context(hits, contextChars)) && citations == Some(Cites(hits))
  {
    if hits == [] {
      return None, None;
    }
    var blocks: seq<string> := [];
    var cites: seq<string> := [];
    for i := 0 to |hits|
      invariant |blocks| == i && |cites| == i
      invariant forall k :: 0 <= k < i ==> blocks[k] == Numbered(k, Get(hits[k], "text", ""))
      invariant forall k :: 0 <= k < i ==> cites[k] == Cite(hits[k])
    {
      var payload := hits[i];
      var text := Get(payload, "text", "");
      blocks := blocks + [Numbered(i, text)];
      cites := cites + [Cite(payload)];
    }
    assert blocks == Blocks(hits);
    assert cites == Cites(hits);
    var joined := JoinWith("\n\n", blocks);
    if |joined| > contextChars {
      joined := if contextChars >= 0 then joined[..contextChars] else joined[..Chunking.Max(0, |joined| + contextChars)];
    }
    return Some(joined), Some(cites);
  }

  /** A block that ends within the budget appears whole in the context, at the
      place the blank-line join puts it: after the blocks of the better-ranked
      hits and the separators between them. */
  lemma {:induction false} BlockInContext(hits: seq<Hit>, budget: int, k: nat)
    requires k < |hits|
    requires JoinOffset("\n\n", Blocks(hits), k) + |Blocks(hits)[k]| <= budget
    ensures var c := Context(hits, budget);
            var o := JoinOffset("\n\n", Blocks(hits), k);
            var b := Numbered(k, Get(hits[k], "text", ""));
            o + |b| <= |c| && c[o..o + |b|] == b
  {
    var j := JoinWith("\n\n", Blocks(hits));
    var o := JoinOffset("\n\n", Blocks(hits), k);
    JoinLayout("\n\n", Blocks(hits), k);
    var c := Context(hits, budget);
    assert |c| == Chunking.Min(budget, |j|);
    PrefixSlice(j, |c|, o, o + |Blocks(hits)[k]|);
  }

  /** With at least one hit the join is never empty, so the context is empty
      exactly when the budget is zero or cuts away the whole join. */
  lemma EmptyContext(hits: seq<Hit>, budget: int)
    requires hits != []
    ensures Context(hits, budget) == "" <==>
      budget == 0 || budget <= -|JoinWith("\n\n", Blocks(hits))|
  {
    JoinLayout("\n\n", Blocks(hits), 0);
    assert |Blocks(hits)[0]| > 0;
  }

  lemma PrefixSlice(s: string, n: nat, lo: nat, hi: nat)
    requires lo <= hi <= n <= |s|
    ensures s[..n][lo..hi] == s[lo..hi]
  {
  }

  /** When the whole join fits the budget nothing is cut, and the context is
      exactly the blocks separated by blank lines. */
  lemma {:induction false} ContextFits(hits: seq<Hit>, budget: int)
    requires |JoinWith("\n\n", Blocks(hits))| <= budget
    ensures Context(hits, budget) == JoinWith("\n\n", Blocks(hits))
  {
    var j := JoinWith("\n\n", Blocks(hits));
    assert |Context(hits, budget)| == |j|;
  }
}
