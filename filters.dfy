/**
 * Payload filters as the vector store evaluates them: every `must` condition
 * holds and, when there are `should` conditions, at least one of them does.
 * The functions below build the filters the RAG client sends, each with the
 * set of payloads it selects stated outright.
 */
module Filters {
  import opened Wrappers
  import opened Records

  /** The integer payload fields the client filters on. */
  datatype Key = GuildId | ChannelId | AuthorId | MessageId | CreatedAtTs

  function FieldOf(p: Payload, k: Key): int {
    match k
    case GuildId => p.guildId
    case ChannelId => p.channelId
    case AuthorId => p.authorId
    case MessageId => p.messageId
    case CreatedAtTs => p.createdAtTs
  }

  /** `FieldCondition(key, match=MatchValue(v))` or
      `FieldCondition(key, range=Range(gte, lte))`; an absent bound is open. */
  datatype Condition =
    | Match(key: Key, value: int)
    | InRange(key: Key, gte: Option<int>, lte: Option<int>)

  predicate Holds(c: Condition, p: Payload) {
    match c
    case Match(k, v) => FieldOf(p, k) == v
    case InRange(k, gte, lte) =>
      (gte.Some? ==> gte.value <= FieldOf(p, k)) && (lte.Some? ==> FieldOf(p, k) <= lte.value)
  }

  datatype Filter = Filter(must: seq<Condition>, should: seq<Condition>)

  predicate AllHold(cs: seq<Condition>, p: Payload) {
    forall i :: 0 <= i < |cs| ==> Holds(cs[i], p)
  }

  predicate AnyHolds(cs: seq<Condition>, p: Payload) {
    exists i :: 0 <= i < |cs| && Holds(cs[i], p)
  }

  predicate Matches(f: Filter, p: Payload) {
    AllHold(f.must, p) && (f.should == [] || AnyHolds(f.should, p))
  }

  /** What a filter selector selects; no filter at all selects every point. */
  predicate Selects(f: Option<Filter>, p: Payload) {
    f.None? || Matches(f.value, p)
  }

  lemma AllHoldAppend(cs: seq<Condition>, c: Condition, p: Payload)
    ensures AllHold(cs + [c], p) <==> AllHold(cs, p) && Holds(c, p)
  {
    if AllHold(cs, p) && Holds(c, p) {
      forall i | 0 <= i < |cs + [c]| ensures Holds((cs + [c])[i], p) {
        if i < |cs| { assert (cs + [c])[i] == cs[i]; }
      }
    }
    if AllHold(cs + [c], p) {
      forall i | 0 <= i < |cs| ensures Holds(cs[i], p) { assert (cs + [c])[i] == cs[i]; }
      assert (cs + [c])[|cs|] == c;
    }
  }

  lemma AllHoldOne(c: Condition, p: Payload)
    ensures AllHold([c], p) <==> Holds(c, p)
  {
    assert [c][0] == c;
  }

  /** The filter for `guild_id == g` that scopes retrieval to one guild. */
  function GuildFilter(g: int): (f: Filter)
    ensures forall p :: Matches(f, p) <==> p.guildId == g
  {
    assert forall p :: AllHold([Match(GuildId, g)], p) <==> p.guildId == g by {
      forall p ensures AllHold([Match(GuildId, g)], p) <==> p.guildId == g { AllHoldOne(Match(GuildId, g), p); }
    }
    Filter([Match(GuildId, g)], [])
  }

  /** `delete_user`'s filter: `author_id == u`. */
  function UserFilter(u: int): (f: Filter)
    ensures forall p :: Matches(f, p) <==> p.authorId == u
  {
    assert forall p :: AllHold([Match(AuthorId, u)], p) <==> p.authorId == u by {
      forall p ensures AllHold([Match(AuthorId, u)], p) <==> p.authorId == u { AllHoldOne(Match(AuthorId, u), p); }
    }
    Filter([Match(AuthorId, u)], [])
  }

  /** `export_user`'s filter: both the guild and the author match. */
  function GuildUserFilter(g: int, u: int): (f: Filter)
    ensures forall p :: Matches(f, p) <==> p.guildId == g && p.authorId == u
  {
    var f := Filter([Match(GuildId, g), Match(AuthorId, u)], []);
    assert forall p :: AllHold(f.must, p) <==> Holds(f.must[0], p) && Holds(f.must[1], p);
    f
  }

  lemma AnyIdHolds(ids: seq<int>, p: Payload)
    ensures AnyHolds(seq(|ids|, i requires 0 <= i < |ids| => Match(MessageId, ids[i])), p) <==> p.messageId in ids
  {
    var should := seq(|ids|, i requires 0 <= i < |ids| => Match(MessageId, ids[i]));
    if p.messageId in ids {
      var i :| 0 <= i < |ids| && ids[i] == p.messageId;
      assert Holds(should[i], p);
    }
  }

  /** `delete_messages_by_ids`'s filter: no filter (and no delete) for an empty
      id list, otherwise the message id is one of `ids` and, when an author is
      given, the author matches too. */
  function IdsFilter(ids: seq<int>, author: Option<int>): (f: Option<Filter>)
    ensures f.None? <==> ids == []
    ensures f.Some? ==> forall p :: Matches(f.value, p) <==>
      p.messageId in ids && (author.Some? ==> p.authorId == author.value)
  {
    if ids == [] then None
    else
      var should := seq(|ids|, i requires 0 <= i < |ids| => Match(MessageId, ids[i]));
      var must := if author.Some? then [Match(AuthorId, author.value)] else [];
      assert forall p :: Matches(Filter(must, should), p) <==>
        p.messageId in ids && (author.Some? ==> p.authorId == author.value) by {
        forall p ensures Matches(Filter(must, should), p) <==>
          p.messageId in ids && (author.Some? ==> p.authorId == author.value) {
          AnyIdHolds(ids, p);
          if author.Some? { AllHoldOne(Match(AuthorId, author.value), p); }
        }
      }
      Some(Filter(must, should))
  }

  /** The retention cut-off: `days` whole days before `nowTs`. */
  function Cutoff(nowTs: int, days: int): int {
    nowTs - days * 86400
  }

  /** Python truthiness of an optional id: present and non-zero. */
  predicate Truthy(x: Option<int>) {
    x.Some? && x.value != 0
  }

  /** `delete_older_than`'s filter: nothing for `days == 0`, otherwise every
      payload created at or before the cut-off, within the guild when a
      (truthy) guild id is given. */
  function RetentionFilter(days: int, guild: Option<int>, nowTs: int): (f: Option<Filter>)
    ensures f.None? <==> days == 0
    ensures f.Some? ==> forall p :: Matches(f.value, p) <==>
      p.createdAtTs <= Cutoff(nowTs, days) && (Truthy(guild) ==> p.guildId == guild.value)
  {
    if days == 0 then None
    else
      var base := [InRange(CreatedAtTs, None, Some(Cutoff(nowTs, days)))];
      var must := if Truthy(guild) then base + [Match(GuildId, guild.value)] else base;
      assert forall p :: AllHold(must, p) <==>
        p.createdAtTs <= Cutoff(nowTs, days) && (Truthy(guild) ==> p.guildId == guild.value) by {
        forall p ensures AllHold(must, p) <==>
          p.createdAtTs <= Cutoff(nowTs, days) && (Truthy(guild) ==> p.guildId == guild.value) {
          AllHoldOne(base[0], p);
          if Truthy(guild) { AllHoldAppend(base, Match(GuildId, guild.value), p); }
        }
      }
      Some(Filter(must, []))
  }

  /** The scope `delete_filtered` and `export_all` restrict to: each id that
      is given must match. */
  predicate InScope(p: Payload, guild: Option<int>, user: Option<int>, channel: Option<int>) {
    && (guild.Some? ==> p.guildId == guild.value)
    && (user.Some? ==> p.authorId == user.value)
    && (channel.Some? ==> p.channelId == channel.value)
  }

  /** The creation-time window: at or after `after`, at or before `before`. */
  predicate InWindow(p: Payload, before: Option<int>, after: Option<int>) {
    && (after.Some? ==> after.value <= p.createdAtTs)
    && (before.Some? ==> p.createdAtTs <= before.value)
  }

  /** The condition for one optional id: appended only when the id is given. */
  function OptMatch(k: Key, x: Option<int>): seq<Condition> {
    if x.Some? then [Match(k, x.value)] else []
  }

  lemma OptMatchHolds(k: Key, x: Option<int>, p: Payload)
    ensures AllHold(OptMatch(k, x), p) <==> (x.Some? ==> FieldOf(p, k) == x.value)
  {
    if x.Some? { AllHoldOne(Match(k, x.value), p); }
  }

  lemma AllHoldConcat(a: seq<Condition>, b: seq<Condition>, p: Payload)
    ensures AllHold(a + b, p) <==> AllHold(a, p) && AllHold(b, p)
  {
    if AllHold(a, p) && AllHold(b, p) {
      forall i | 0 <= i < |a + b| ensures Holds((a + b)[i], p) {
        if i < |a| { assert (a + b)[i] == a[i]; } else { assert (a + b)[i] == b[i - |a|]; }
      }
    }
    if AllHold(a + b, p) {
      forall i | 0 <= i < |a| ensures Holds(a[i], p) { assert (a + b)[i] == a[i]; }
      forall i | 0 <= i < |b| ensures Holds(b[i], p) { assert (a + b)[|a| + i] == b[i]; }
    }
  }

  /** The `must` list `delete_filtered` builds: guild, author, channel, then one
      range condition when either time bound is given. */
  function ScopeConditions(guild: Option<int>, user: Option<int>, channel: Option<int>,
                           before: Option<int>, after: Option<int>): (must: seq<Condition>)
    ensures must == [] <==> guild.None? && user.None? && channel.None? && before.None? && after.None?
    ensures forall p :: AllHold(must, p) <==> InScope(p, guild, user, channel) && InWindow(p, before, after)
  {
    var ids := OptMatch(GuildId, guild) + OptMatch(AuthorId, user) + OptMatch(ChannelId, channel);
    var range := if before.Some? || after.Some? then [InRange(CreatedAtTs, after, before)] else [];
    var must := ids + range;
    assert forall p :: AllHold(must, p) <==> InScope(p, guild, user, channel) && InWindow(p, before, after) by {
      forall p ensures AllHold(must, p) <==> InScope(p, guild, user, channel) && InWindow(p, before, after) {
        OptMatchHolds(GuildId, guild, p);
        OptMatchHolds(AuthorId, user, p);
        OptMatchHolds(ChannelId, channel, p);
        if before.Some? || after.Some? { AllHoldOne(InRange(CreatedAtTs, after, before), p); }
        AllHoldConcat(OptMatch(GuildId, guild), OptMatch(AuthorId, user), p);
        AllHoldConcat(OptMatch(GuildId, guild) + OptMatch(AuthorId, user), OptMatch(ChannelId, channel), p);
        AllHoldConcat(ids, range, p);
      }
    }
    must
  }

  /** `Filter(must=must) if must else None`, over the scope conditions. */
  function ScopedFilter(guild: Option<int>, user: Option<int>, channel: Option<int>,
                        before: Option<int>, after: Option<int>): (f: Option<Filter>)
    ensures f.None? <==> guild.None? && user.None? && channel.None? && before.None? && after.None?
    ensures forall p :: Selects(f, p) <==> InScope(p, guild, user, channel) && InWindow(p, before, after)
  {
    var must := ScopeConditions(guild, user, channel, before, after);
    if must == [] then None else Some(Filter(must, []))
  }
}
